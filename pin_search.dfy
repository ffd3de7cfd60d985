/** The image search of apps/ai/downloader/pinterest.py: the Custom Search query built from
    the keywords, the paging loop of `search_pinterest_images` with its three attempts per
    page, and the loop of `main` that downloads each found image once and keeps one image per
    average hash.

    The search service is the oracle `fetch(request, attempt)`, which gives the page the
    service answers or None when the request raises; `download(url)` is the oracle for
    `download_image`, giving the file the image was saved as (its name is the image's hash and
    extension) or None on failure. The perceptual hash itself is modelled in ImageHash. */
module PinSearch {
  import opened Wrappers

  // ---------------------------------------------------------------------------------
  // The query

  const SITE_FILTER: string := "site:pinterest.com ("
  const OR_SEPARATOR: string := " OR "

  /** `f'"{kw}"'`. */
  function Quote(kw: string): (q: string)
    ensures |q| == |kw| + 2 && q[0] == '"' && q[|q| - 1] == '"' && q[1..|q| - 1] == kw
  {
    "\"" + kw + "\""
  }

  /** `' OR '.join(terms)`. */
  function JoinOr(terms: seq<string>): (r: string)
    ensures terms == [] ==> r == []
    ensures terms != [] ==> |terms[0]| <= |r| && r[..|terms[0]|] == terms[0]
    ensures terms != [] ==> |terms[|terms| - 1]| <= |r| && r[|r| - |terms[|terms| - 1]|..] == terms[|terms| - 1]
  {
    if terms == [] then ""
    else if |terms| == 1 then terms[0]
    else JoinOr(terms[..|terms| - 1]) + OR_SEPARATOR + terms[|terms| - 1]
  }

  /** The keywords, each in double quotes. */
  function QuoteAll(keywords: seq<string>): (terms: seq<string>)
    ensures |terms| == |keywords|
    ensures forall k :: 0 <= k < |keywords| ==> terms[k] == Quote(keywords[k])
  {
    seq(|keywords|, k requires 0 <= k < |keywords| => Quote(keywords[k]))
  }

  /** The query of `search_pinterest_images`: the keywords as alternatives, restricted to
      the Pinterest site. */
  function SearchQuery(keywords: seq<string>): (q: string)
    ensures |q| > |SITE_FILTER| && q[..|SITE_FILTER|] == SITE_FILTER && q[|q| - 1] == ')'
  {
    var q := SITE_FILTER + (JoinOr(QuoteAll(keywords)) + ")");
    assert q[..|SITE_FILTER|] == SITE_FILTER;
    q
  }

  /** The total length of the terms. */
  function TermsLength(terms: seq<string>): nat {
    if terms == [] then 0 else TermsLength(terms[..|terms| - 1]) + |terms[|terms| - 1]|
  }

  /** The joined alternatives hold every term and one separator between each two. */
  lemma {:induction false} JoinOrLength(terms: seq<string>)
    requires terms != []
    ensures |JoinOr(terms)| == TermsLength(terms) + |OR_SEPARATOR| * (|terms| - 1)
    decreases |terms|
  {
    if |terms| > 1 {
      JoinOrLength(terms[..|terms| - 1]);
    } else {
      assert terms[..0] == [];
    }
  }

  /** A further keyword is appended to the alternatives after " OR ". */
  lemma AlternativesAppend(keywords: seq<string>, kw: string)
    requires keywords != []
    ensures JoinOr(QuoteAll(keywords + [kw])) == JoinOr(QuoteAll(keywords)) + OR_SEPARATOR + Quote(kw)
  {
    var terms := QuoteAll(keywords + [kw]);
    assert |terms| > 1;
    assert terms[..|terms| - 1] == QuoteAll(keywords);
    assert terms[|terms| - 1] == Quote(kw);
  }

  /** One keyword gives `site:pinterest.com ("kw")`. */
  lemma SearchQuerySingle(kw: string)
    ensures SearchQuery([kw]) == "site:pinterest.com (\"" + kw + "\")"
  {
    assert QuoteAll([kw]) == [Quote(kw)];
  }

  // ---------------------------------------------------------------------------------
  // search_pinterest_images

  const SEARCH_TYPE: string := "image"
  const PAGE_LIMIT: int := 10
  const MAX_ATTEMPTS: nat := 3

  /** The parameters of one request to the search service. */
  datatype Request = Request(key: string, cx: string, q: string, searchType: string, num: int, start: int, dateRestrict: string)

  /** An item of an answer: its `link` and its `image.contextLink`, each possibly absent. */
  datatype Item = Item(link: Option<string>, contextLink: Option<string>)

  /** An answer: its items (none when the field is absent) and whether it names a next page. */
  datatype Page = Page(items: seq<Item>, hasNextPage: bool)

  /** One result of the search. */
  datatype Found = Found(originalUrl: Option<string>, srcUrl: Option<string>)

  datatype SearchError = EnvironmentError

  /** What stays the same for every request of one search. */
  datatype Config = Config(key: string, cx: string, query: string, dateRestrict: string)

  /** `min(10, total_results - len(results))`: the number of items asked for. */
  function PageSize(total: int, collected: nat): (num: int)
    requires collected < total
    ensures 1 <= num <= PAGE_LIMIT && num <= total - collected
    ensures num == PAGE_LIMIT || num == total - collected
  {
    if total - collected < PAGE_LIMIT then total - collected else PAGE_LIMIT
  }

  /** The request for the page after `collected` results: it starts at position
      `collected + 1`, counted from 1 as the service does. */
  function PageRequest(config: Config, total: int, collected: nat): (r: Request)
    requires collected < total
    ensures r.start == collected + 1 && 1 <= r.num <= PAGE_LIMIT && r.num <= total - collected
    ensures r.key == config.key && r.cx == config.cx && r.q == config.query && r.searchType == SEARCH_TYPE
  {
    Request(config.key, config.cx, config.query, SEARCH_TYPE, PageSize(total, collected), collected + 1, config.dateRestrict)
  }

  /** The answer of the first of attempts `attempt`, ..., 2 that does not raise. */
  function FirstSuccess(fetch: (Request, nat) -> Option<Page>, req: Request, attempt: nat): (r: Option<Page>)
    ensures r.Some? ==> exists a: nat :: attempt <= a < MAX_ATTEMPTS && fetch(req, a) == r
    ensures attempt < MAX_ATTEMPTS && fetch(req, attempt).Some? ==> r == fetch(req, attempt)
    decreases MAX_ATTEMPTS - attempt
  {
    if attempt >= MAX_ATTEMPTS then None
    else if fetch(req, attempt).Some? then fetch(req, attempt)
    else FirstSuccess(fetch, req, attempt + 1)
  }

  /** The results an answer's items give, in item order. */
  function Hits(items: seq<Item>): (found: seq<Found>)
    ensures |found| == |items|
    ensures forall k :: 0 <= k < |items| ==> found[k] == Found(items[k].link, items[k].contextLink)
  {
    seq(|items|, k requires 0 <= k < |items| => Found(items[k].link, items[k].contextLink))
  }

  /** The results of the search once `collected` are in: paging goes on while fewer than
      `total` are collected, and stops after a page whose three attempts all raise, an empty
      page, or a page that names no next page. */
  function SearchFrom(config: Config, total: int, fetch: (Request, nat) -> Option<Page>, collected: seq<Found>): (r: seq<Found>)
    ensures |r| >= |collected|
    ensures |collected| >= total ==> r == collected
    decreases total - |collected|
  {
    if |collected| >= total then collected
    else
      match FirstSuccess(fetch, PageRequest(config, total, |collected|), 0)
      case None => collected
      case Some(page) =>
        if page.items == [] then collected
        else if !page.hasNextPage then collected + Hits(page.items)
        else SearchFrom(config, total, fetch, collected + Hits(page.items))
  }

  /** `search_pinterest_images`: EnvironmentError without an API key or engine id. */
  function Search(apiKey: Option<string>, cxId: Option<string>, keywords: seq<string>, total: int, dateRestrict: string,
                  fetch: (Request, nat) -> Option<Page>): (r: Result<seq<Found>, SearchError>)
    ensures r.Failure? <==> Falsy(apiKey) || Falsy(cxId)
    ensures r.Success? && total <= 0 ==> r.value == []
  {
    if Falsy(apiKey) || Falsy(cxId) then Failure(EnvironmentError)
    else Success(SearchFrom(Config(apiKey.value, cxId.value, SearchQuery(keywords), dateRestrict), total, fetch, []))
  }

  /** The three attempts for one page; the pause between attempts is not modelled. */
  method FetchPage(fetch: (Request, nat) -> Option<Page>, req: Request) returns (data: Option<Page>)
    ensures data == FirstSuccess(fetch, req, 0)
  {
    data := None;
    var attempt: nat := 0;
    while attempt < MAX_ATTEMPTS && data.None?
      invariant attempt <= MAX_ATTEMPTS
      invariant data.None? ==> FirstSuccess(fetch, req, attempt) == FirstSuccess(fetch, req, 0)
      invariant data.Some? ==> data == FirstSuccess(fetch, req, 0)
    {
      data := fetch(req, attempt);
      attempt := attempt + 1;
    }
  }

  /** The loop appending one result per item. */
  method AppendHits(results: seq<Found>, items: seq<Item>) returns (extended: seq<Found>)
    ensures extended == results + Hits(items)
  {
    extended := results;
    for k := 0 to |items|
      invariant extended == results + Hits(items[..k])
    {
      var item := items[k];
      assert Hits(items[..k + 1]) == Hits(items[..k]) + [Found(item.link, item.contextLink)];
      extended := extended + [Found(item.link, item.contextLink)];
    }
    assert items[..|items|] == items;
  }

  /** `search_pinterest_images`. */
  method SearchPinterestImages(apiKey: Option<string>, cxId: Option<string>, keywords: seq<string>, totalResults: int,
                               dateRestrict: string, fetch: (Request, nat) -> Option<Page>)
    returns (r: Result<seq<Found>, SearchError>)
    ensures r.Failure? <==> Falsy(apiKey) || Falsy(cxId)
    ensures r == Search(apiKey, cxId, keywords, totalResults, dateRestrict, fetch)
  {
    if Falsy(apiKey) || Falsy(cxId) {
      return Failure(EnvironmentError);
    }
    var config := Config(apiKey.value, cxId.value, SearchQuery(keywords), dateRestrict);
    ghost var final := SearchFrom(config, totalResults, fetch, []);
    var results: seq<Found> := [];
    var start := 1;
    var stop := false;
    while !stop && |results| < totalResults
      invariant start == |results| + 1
      invariant !stop ==> SearchFrom(config, totalResults, fetch, results) == final
      invariant stop ==> results == final
      decreases totalResults - |results|, if stop then 0 else 1
    {
      var req := Request(config.key, config.cx, config.query, SEARCH_TYPE, PageSize(totalResults, |results|), start, config.dateRestrict);
      assert req == PageRequest(config, totalResults, |results|);
      var data := FetchPage(fetch, req);
      if data.None? {
        stop := true;
      } else if data.value.items == [] {
        stop := true;
      } else {
        var items := data.value.items;
        results := AppendHits(results, items);
        start := start + |items|;
        if !data.value.hasNextPage {
          stop := true;
        }
      }
    }
    r := Success(results);
  }

  /** The attempts for one page: none answers exactly when all three raise, and otherwise the
      answer used is that of the first attempt that does not raise. */
  lemma {:induction false} FirstSuccessAttempts(fetch: (Request, nat) -> Option<Page>, req: Request, attempt: nat)
    ensures FirstSuccess(fetch, req, attempt).None? <==> forall a :: attempt <= a < MAX_ATTEMPTS ==> fetch(req, a).None?
    ensures FirstSuccess(fetch, req, attempt).Some? ==>
      exists a :: attempt <= a < MAX_ATTEMPTS && FirstSuccess(fetch, req, attempt) == fetch(req, a)
        && forall b :: attempt <= b < a ==> fetch(req, b).None?
    decreases MAX_ATTEMPTS - attempt
  {
    if attempt < MAX_ATTEMPTS && fetch(req, attempt).None? {
      FirstSuccessAttempts(fetch, req, attempt + 1);
    }
  }

  /** Results are only ever appended: the search extends what is already collected. */
  lemma {:induction false} SearchExtends(config: Config, total: int, fetch: (Request, nat) -> Option<Page>, collected: seq<Found>)
    ensures var r := SearchFrom(config, total, fetch, collected);
      |collected| <= |r| && r[..|collected|] == collected
    decreases total - |collected|
  {
    if |collected| < total {
      var page := FirstSuccess(fetch, PageRequest(config, total, |collected|), 0);
      if page.Some? && page.value.items != [] {
        var next := collected + Hits(page.value.items);
        if page.value.hasNextPage {
          SearchExtends(config, total, fetch, next);
          var r := SearchFrom(config, total, fetch, next);
          assert r[..|collected|] == r[..|next|][..|collected|];
        } else {
          assert next[..|collected|] == collected;
        }
      }
    }
  }

  /** A service that answers every request with at most the items it asks for. */
  ghost predicate RespectsNum(fetch: (Request, nat) -> Option<Page>) {
    forall req, a :: fetch(req, a).Some? ==> |fetch(req, a).value.items| <= req.num
  }

  /** Against such a service the search never collects more than `total_results`. */
  lemma {:induction false} SearchBounded(config: Config, total: int, fetch: (Request, nat) -> Option<Page>, collected: seq<Found>)
    requires RespectsNum(fetch)
    requires |collected| <= total
    ensures |SearchFrom(config, total, fetch, collected)| <= total
    decreases total - |collected|
  {
    if |collected| < total {
      var req := PageRequest(config, total, |collected|);
      var page := FirstSuccess(fetch, req, 0);
      if page.Some? && page.value.items != [] {
        FirstSuccessAttempts(fetch, req, 0);
        var a :| 0 <= a < MAX_ATTEMPTS && page == fetch(req, a);
        assert |page.value.items| <= req.num;
        if page.value.hasNextPage {
          SearchBounded(config, total, fetch, collected + Hits(page.value.items));
        }
      }
    }
  }

  /** A service that always answers at once with a full page and a next page. */
  ghost predicate AlwaysFull(fetch: (Request, nat) -> Option<Page>) {
    forall req :: fetch(req, 0).Some? && |fetch(req, 0).value.items| == req.num && fetch(req, 0).value.hasNextPage
  }

  /** Against such a service the search collects exactly `total_results`. */
  lemma {:induction false} SearchFull(config: Config, total: int, fetch: (Request, nat) -> Option<Page>, collected: seq<Found>)
    requires AlwaysFull(fetch)
    requires |collected| <= total
    ensures |SearchFrom(config, total, fetch, collected)| == total
    decreases total - |collected|
  {
    if |collected| < total {
      var req := PageRequest(config, total, |collected|);
      assert fetch(req, 0).Some?;
      SearchFull(config, total, fetch, collected + Hits(fetch(req, 0).value.items));
    }
  }

  // ---------------------------------------------------------------------------------
  // main: download each result once, keep one image per hash

  /** The keywords and result count `main` searches with. */
  const KEYWORDS: seq<string> := ["밈", "웃긴 짤", "재밌는 짤", "유머 짤"]
  const TOTAL_PER_KEYWORD: int := 50
  const DEFAULT_DATE_RESTRICT: string := "d90"

  /** A saved image file, named `{hash}.{ext}` in the output directory. */
  datatype ImageFile = ImageFile(hash: string, ext: string)

  /** One metadata entry: the result's position in the search results (from 1) and its urls. */
  datatype Meta = Meta(id: int, originalUrl: string, srcUrl: Option<string>)

  /** The state of the loop of `main`: the urls and hashes seen, the metadata, the file each
      metadata entry was saved as, the files in the output directory and, in order, the urls
      downloaded. */
  datatype Dedup = Dedup(seenUrls: set<string>, seenHashes: set<string>, metadata: seq<Meta>, kept: seq<ImageFile>,
                         files: set<ImageFile>, downloaded: seq<string>)

  /** The result's download duplicates a kept image: its url is new and truthy, the download
      succeeds, and the hash was seen before. */
  predicate Duplicate(s: Dedup, r: Found, download: string -> Option<ImageFile>) {
    !Falsy(r.originalUrl) && r.originalUrl.value !in s.seenUrls
    && download(r.originalUrl.value).Some? && download(r.originalUrl.value).value.hash in s.seenHashes
  }

  /** One turn of the loop for the result at position `idx`. A duplicate's file is removed
      unless it is the file of a kept image, which the duplicate has just overwritten. */
  function Step(s: Dedup, idx: int, r: Found, download: string -> Option<ImageFile>): (t: Dedup)
    ensures s.metadata <= t.metadata && |t.metadata| <= |s.metadata| + 1
    ensures s.kept <= t.kept && |t.kept| - |s.kept| == |t.metadata| - |s.metadata|
    ensures s.seenUrls <= t.seenUrls && s.seenHashes <= t.seenHashes
    ensures Falsy(r.originalUrl) ==> t == s
  {
    if Falsy(r.originalUrl) || r.originalUrl.value in s.seenUrls then s
    else
      var url := r.originalUrl.value;
      var seen := s.(seenUrls := s.seenUrls + {url}, downloaded := s.downloaded + [url]);
      match download(url)
      case None => seen
      case Some(file) =>
        if file.hash in s.seenHashes then
          seen.(files := if file in s.kept then s.files + {file} else s.files - {file})
        else
          seen.(seenHashes := s.seenHashes + {file.hash}, metadata := s.metadata + [Meta(idx, url, r.srcUrl)],
                kept := s.kept + [file], files := s.files + {file})
  }

  /** The turn as written: a duplicate's file is removed whatever file it is. */
  function StepAsWritten(s: Dedup, idx: int, r: Found, download: string -> Option<ImageFile>): (t: Dedup)
    ensures t.(files := {}) == Step(s, idx, r, download).(files := {})
    ensures t.files <= Step(s, idx, r, download).files
  {
    var t := Step(s, idx, r, download);
    if Duplicate(s, r, download) then t.(files := t.files - {download(r.originalUrl.value).value}) else t
  }

  /** The state before the loop. */
  function Initial(files: set<ImageFile>): (s: Dedup)
    ensures s.files == files && s.metadata == [] && s.downloaded == []
    ensures KeptValid(s) && DownloadsValid(s) && KeptOnDisk(s)
  {
    Dedup({}, {}, [], [], files, [])
  }

  /** The loop over all results, `enumerate(..., start=1)`. */
  function Run(results: seq<Found>, download: string -> Option<ImageFile>, files: set<ImageFile>): (s: Dedup)
    ensures |s.metadata| == |s.kept| <= |results|
  {
    if results == [] then Initial(files)
    else Step(Run(results[..|results| - 1], download, files), |results|, results[|results| - 1], download)
  }

  /** The loop as written. */
  function RunAsWritten(results: seq<Found>, download: string -> Option<ImageFile>, files: set<ImageFile>): (s: Dedup)
    ensures s.(files := {}) == Run(results, download, files).(files := {})
  {
    if results == [] then Initial(files)
    else StepAsWritten(RunAsWritten(results[..|results| - 1], download, files), |results|, results[|results| - 1], download)
  }

  /** The loop of `main` over the search results, with the files already in the output
      directory: the metadata list and the files left. */
  method DedupDownloads(results: seq<Found>, download: string -> Option<ImageFile>, files0: set<ImageFile>)
    returns (metadata: seq<Meta>, files: set<ImageFile>)
    ensures metadata == Run(results, download, files0).metadata
    ensures files == Run(results, download, files0).files
  {
    var seenUrls: set<string> := {};
    var seenHashes: set<string> := {};
    var kept: seq<ImageFile> := [];
    ghost var downloaded: seq<string> := [];
    metadata, files := [], files0;
    for k := 0 to |results|
      invariant Dedup(seenUrls, seenHashes, metadata, kept, files, downloaded) == Run(results[..k], download, files0)
    {
      var idx := k + 1;
      var result := results[k];
      assert results[..k + 1][..k] == results[..k];
      var origUrl := result.originalUrl;
      if !Falsy(origUrl) && origUrl.value !in seenUrls {
        var url := origUrl.value;
        seenUrls := seenUrls + {url};
        downloaded := downloaded + [url];
        var got := download(url);
        if got.Some? {
          var file := got.value;
          if file.hash in seenHashes {
            files := if file in kept then files + {file} else files - {file};
          } else {
            seenHashes := seenHashes + {file.hash};
            metadata := metadata + [Meta(idx, url, result.srcUrl)];
            kept := kept + [file];
            files := files + {file};
          }
        }
      }
    }
    assert results[..|results|] == results;
  }

  /** `main`: the search for the keywords, then the loop over its results. An EnvironmentError
      from the search ends `main`. */
  method CollectSeed(apiKey: Option<string>, cxId: Option<string>, fetch: (Request, nat) -> Option<Page>,
                     download: string -> Option<ImageFile>, files0: set<ImageFile>)
    returns (r: Result<(seq<Meta>, set<ImageFile>), SearchError>)
    ensures var search := Search(apiKey, cxId, KEYWORDS, TOTAL_PER_KEYWORD, DEFAULT_DATE_RESTRICT, fetch);
      && (r.Failure? <==> search.Failure?)
      && (r.Success? ==> r.value == (Run(search.value, download, files0).metadata, Run(search.value, download, files0).files))
  {
    var found := SearchPinterestImages(apiKey, cxId, KEYWORDS, TOTAL_PER_KEYWORD, DEFAULT_DATE_RESTRICT, fetch);
    if found.Failure? {
      return Failure(found.error);
    }
    var metadata, files := DedupDownloads(found.value, download, files0);
    r := Success((metadata, files));
  }

  // ---------------------------------------------------------------------------------
  // Properties of the loop of main

  /** The urls downloaded are distinct and non-empty, and they are exactly the urls seen. */
  ghost predicate DownloadsValid(s: Dedup) {
    && (forall i, j :: 0 <= i < j < |s.downloaded| ==> s.downloaded[i] != s.downloaded[j])
    && (forall i :: 0 <= i < |s.downloaded| ==> s.downloaded[i] != "")
    && (forall u :: u in s.seenUrls <==> u in s.downloaded)
  }

  lemma StepDownloads(s: Dedup, idx: int, r: Found, download: string -> Option<ImageFile>)
    requires DownloadsValid(s)
    ensures DownloadsValid(Step(s, idx, r, download))
  {
    var t := Step(s, idx, r, download);
    if t.downloaded != s.downloaded {
      assert t.downloaded == s.downloaded + [r.originalUrl.value];
    }
  }

  /** Each url is downloaded at most once, falsy urls never: the urls downloaded are distinct
      and non-empty, and they are exactly the urls seen. */
  lemma {:induction false} DownloadsOnce(results: seq<Found>, download: string -> Option<ImageFile>, files: set<ImageFile>)
    ensures DownloadsValid(Run(results, download, files))
  {
    if results != [] {
      var prefix := results[..|results| - 1];
      DownloadsOnce(prefix, download, files);
      StepDownloads(Run(prefix, download, files), |results|, results[|results| - 1], download);
    }
  }

  /** One kept file per metadata entry, every entry's url seen, no two entries with the same
      url or the same hash, and the hashes seen exactly those kept. */
  ghost predicate KeptValid(s: Dedup) {
    && |s.kept| == |s.metadata|
    && (forall k :: 0 <= k < |s.metadata| ==> s.metadata[k].originalUrl in s.seenUrls)
    && (forall i, j :: 0 <= i < j < |s.metadata| ==> s.metadata[i].originalUrl != s.metadata[j].originalUrl)
    && (forall i, j :: 0 <= i < j < |s.kept| ==> s.kept[i].hash != s.kept[j].hash)
    && (forall h :: h in s.seenHashes <==> exists k :: 0 <= k < |s.kept| && s.kept[k].hash == h)
  }

  lemma StepKept(s: Dedup, idx: int, r: Found, download: string -> Option<ImageFile>)
    requires KeptValid(s)
    ensures KeptValid(Step(s, idx, r, download))
  {
    var t := Step(s, idx, r, download);
    if t.kept != s.kept {
      var url := r.originalUrl.value;
      var file := download(url).value;
      assert t.kept == s.kept + [file] && file.hash !in s.seenHashes;
      assert t.metadata == s.metadata + [Meta(idx, url, r.srcUrl)] && url !in s.seenUrls;
      assert t.seenHashes == s.seenHashes + {file.hash};
      forall h | h in t.seenHashes
        ensures exists k :: 0 <= k < |t.kept| && t.kept[k].hash == h
      {
        if h == file.hash {
          assert t.kept[|s.kept|].hash == h;
        } else {
          var k :| 0 <= k < |s.kept| && s.kept[k].hash == h;
          assert t.kept[k] == s.kept[k];
        }
      }
      forall k | 0 <= k < |t.kept|
        ensures t.kept[k].hash in t.seenHashes
      {
        if k < |s.kept| {
          assert t.kept[k] == s.kept[k];
        }
      }
    }
  }

  /** The kept images: one file per metadata entry, no two entries with the same url or the
      same hash, and the hashes seen are exactly those kept. */
  lemma {:induction false} KeptDistinct(results: seq<Found>, download: string -> Option<ImageFile>, files: set<ImageFile>)
    ensures KeptValid(Run(results, download, files))
  {
    if results != [] {
      var prefix := results[..|results| - 1];
      KeptDistinct(prefix, download, files);
      StepKept(Run(prefix, download, files), |results|, results[|results| - 1], download);
    }
  }

  /** The ids are positions up to `n` in `results`, increasing, and each entry carries the
      urls of its result. */
  ghost predicate IdsValid(m: seq<Meta>, results: seq<Found>, n: nat) {
    && n <= |results|
    && (forall i, j :: 0 <= i < j < |m| ==> m[i].id < m[j].id)
    && forall k :: 0 <= k < |m| ==>
      (1 <= m[k].id <= n && results[m[k].id - 1].originalUrl == Some(m[k].originalUrl) && results[m[k].id - 1].srcUrl == m[k].srcUrl)
  }

  lemma StepIds(s: Dedup, results: seq<Found>, n: nat, download: string -> Option<ImageFile>)
    requires n < |results| && IdsValid(s.metadata, results, n)
    ensures IdsValid(Step(s, n + 1, results[n], download).metadata, results, n + 1)
  {
    var t := Step(s, n + 1, results[n], download);
    if t.metadata != s.metadata {
      var r := results[n];
      assert t.metadata == s.metadata + [Meta(n + 1, r.originalUrl.value, r.srcUrl)];
    }
  }

  lemma {:induction false} IdsUpTo(results: seq<Found>, n: nat, download: string -> Option<ImageFile>, files: set<ImageFile>)
    requires n <= |results|
    ensures IdsValid(Run(results[..n], download, files).metadata, results, n)
  {
    if n > 0 {
      IdsUpTo(results, n - 1, download, files);
      assert results[..n][..n - 1] == results[..n - 1];
      StepIds(Run(results[..n - 1], download, files), results, n - 1, download);
    }
  }

  /** The ids are the positions of the results, from 1, increasing, and each entry carries
      the urls of its result. */
  lemma IdsFollowResults(results: seq<Found>, download: string -> Option<ImageFile>, files: set<ImageFile>)
    ensures var m := Run(results, download, files).metadata;
      && (forall i, j :: 0 <= i < j < |m| ==> m[i].id < m[j].id)
      && forall k :: 0 <= k < |m| ==>
        (1 <= m[k].id <= |results| && results[m[k].id - 1].originalUrl == Some(m[k].originalUrl) && results[m[k].id - 1].srcUrl == m[k].srcUrl)
  {
    IdsUpTo(results, |results|, download, files);
    assert results[..|results|] == results;
  }

  /** Every kept image's file is in the output directory. */
  ghost predicate KeptOnDisk(s: Dedup) {
    forall k :: 0 <= k < |s.kept| ==> s.kept[k] in s.files
  }

  lemma StepKeepsFiles(s: Dedup, idx: int, r: Found, download: string -> Option<ImageFile>)
    requires KeptValid(s) && KeptOnDisk(s)
    ensures KeptOnDisk(Step(s, idx, r, download))
  {
    var t := Step(s, idx, r, download);
    if t.files != s.files && t.kept == s.kept {
      var file := download(r.originalUrl.value).value;
      if file !in s.kept {
        forall k | 0 <= k < |t.kept|
          ensures t.kept[k] in t.files
        {
          assert s.kept[k] != file;
        }
      }
    }
  }

  /** The file of every kept image is in the output directory when the loop ends. */
  lemma {:induction false} KeptFilesStay(results: seq<Found>, download: string -> Option<ImageFile>, files: set<ImageFile>)
    ensures KeptOnDisk(Run(results, download, files))
  {
    if results != [] {
      var prefix := results[..|results| - 1];
      KeptFilesStay(prefix, download, files);
      KeptDistinct(prefix, download, files);
      StepKeepsFiles(Run(prefix, download, files), |results|, results[|results| - 1], download);
    }
  }

  /** As written, a second url whose image has the hash and format of a kept one removes the
      kept image's file: after two such results the metadata lists an image whose file is gone. */
  lemma AsWrittenRemovesKeptFile()
    ensures var download := (url: string) => Some(ImageFile("ff00", "jpeg"));
      var results := [Found(Some("a"), None), Found(Some("b"), None)];
      var s := RunAsWritten(results, download, {});
      && s.metadata == [Meta(1, "a", None)]
      && s.kept == [ImageFile("ff00", "jpeg")]
      && ImageFile("ff00", "jpeg") !in s.files
  {
    var download := (url: string) => Some(ImageFile("ff00", "jpeg"));
    var results := [Found(Some("a"), None), Found(Some("b"), None)];
    assert results[..1] == [Found(Some("a"), None)];
    assert results[..1][..0] == [];
  }
}
