/** `SearchService.search` of apps/be/src/search/search/search.service.ts: the query is
    normalised, the paging parameters are clamped, the AI server ranks image ids for the
    query, and one page of the ranked images is read from the Image table, either in the AI's
    order ("accuracy") or by likes ("like").

    The AI call is the oracle `ai(query)`, which gives the image ids of the recommendations in
    rank order, or the message of the exception the AI client raises. The Image table is a
    parameter: the search only reads it. Whitespace and letter case are ASCII. */
module SearchService {
  import opened Wrappers
  import opened Strings
  import opened Sorting
  import opened ImageService
  import Arith

  // ---------------------------------------------------------------------------------
  // Query normalisation

  /** `/\s+/g` replaced by one space: every run of whitespace becomes a single space. */
  function Collapse(s: string): (r: string)
    ensures |r| <= |s|
    ensures r == [] <==> s == []
    decreases |s|
  {
    if s == [] then []
    else if s[0] in JS_WHITESPACE then [' '] + Collapse(TrimStart(s[1..], JS_WHITESPACE))
    else [s[0]] + Collapse(s[1..])
  }

  /** `(query ?? "").trim().toLowerCase().replace(/\s+/g, " ")`. */
  function NormalizeQuery(query: Option<string>): (r: string)
    ensures query.None? ==> r == []
    ensures query.Some? ==> |r| <= |query.value|
  {
    var raw := if query.Some? then query.value else "";
    Collapse(Lower(Trim(raw, JS_WHITESPACE)))
  }

  /** The only whitespace is single spaces. */
  predicate NoRuns(s: string) {
    && (forall k :: 0 <= k < |s| && s[k] in JS_WHITESPACE ==> s[k] == ' ')
    && (forall k :: 0 <= k < |s| - 1 ==> !(s[k] == ' ' && s[k + 1] == ' '))
  }

  /** A normalised query: no whitespace at either end, no upper case, no runs. */
  predicate Normalized(s: string) {
    && (s != [] ==> s[0] !in JS_WHITESPACE && s[|s| - 1] !in JS_WHITESPACE)
    && (forall k :: 0 <= k < |s| ==> !IsUpper(s[k]))
    && NoRuns(s)
  }

  /** Collapsing leaves no runs, and starts with whitespace exactly when its input does. */
  lemma {:induction false} CollapseNoRuns(s: string)
    ensures NoRuns(Collapse(s))
    ensures Collapse(s) == [] <==> s == []
    ensures s != [] ==> (Collapse(s)[0] in JS_WHITESPACE <==> s[0] in JS_WHITESPACE)
    decreases |s|
  {
    if s != [] {
      var rest := if s[0] in JS_WHITESPACE then TrimStart(s[1..], JS_WHITESPACE) else s[1..];
      CollapseNoRuns(rest);
      var r := Collapse(s);
      assert r == [if s[0] in JS_WHITESPACE then ' ' else s[0]] + Collapse(rest);
      forall k | 0 <= k < |r| - 1
        ensures !(r[k] == ' ' && r[k + 1] == ' ')
      {
        if k > 0 {
          assert r[k] == Collapse(rest)[k - 1] && r[k + 1] == Collapse(rest)[k];
        }
      }
    }
  }

  /** Collapsing keeps the last character when it is not whitespace. */
  lemma {:induction false} CollapseLast(s: string)
    requires s != [] && s[|s| - 1] !in JS_WHITESPACE
    ensures Collapse(s) != [] && Collapse(s)[|Collapse(s)| - 1] == s[|s| - 1]
    decreases |s|
  {
    if |s| > 1 {
      var rest := if s[0] in JS_WHITESPACE then TrimStart(s[1..], JS_WHITESPACE) else s[1..];
      if s[0] in JS_WHITESPACE {
        TrimStartSuffix(s[1..], JS_WHITESPACE);
        assert rest != [] by {
          assert s[1..][|s[1..]| - 1] !in JS_WHITESPACE;
        }
        assert rest[|rest| - 1] == s[|s| - 1];
      }
      CollapseLast(rest);
    }
  }

  /** Collapsing adds no letter: without upper case before, none after. */
  lemma {:induction false} CollapseLower(s: string)
    requires forall k :: 0 <= k < |s| ==> !IsUpper(s[k])
    ensures forall k :: 0 <= k < |Collapse(s)| ==> !IsUpper(Collapse(s)[k])
    decreases |s|
  {
    if s != [] {
      var rest := if s[0] in JS_WHITESPACE then TrimStart(s[1..], JS_WHITESPACE) else s[1..];
      if s[0] in JS_WHITESPACE {
        TrimStartSuffix(s[1..], JS_WHITESPACE);
      }
      CollapseLower(rest);
      var r := Collapse(s);
      assert r == [if s[0] in JS_WHITESPACE then ' ' else s[0]] + Collapse(rest);
      forall k | 1 <= k < |r|
        ensures !IsUpper(r[k])
      {
        assert r[k] == Collapse(rest)[k - 1];
      }
    }
  }

  /** A string without runs is its own collapse. */
  lemma {:induction false} CollapseFixed(s: string)
    requires NoRuns(s)
    ensures Collapse(s) == s
    decreases |s|
  {
    if s != [] {
      assert NoRuns(s[1..]) by {
        forall k | 0 <= k < |s[1..]| - 1
          ensures !(s[1..][k] == ' ' && s[1..][k + 1] == ' ')
        {
          assert s[1..][k] == s[k + 1] && s[1..][k + 1] == s[k + 2];
        }
      }
      if s[0] in JS_WHITESPACE && |s| > 1 {
        assert s[1] !in JS_WHITESPACE;
        assert TrimStart(s[1..], JS_WHITESPACE) == s[1..];
      }
      CollapseFixed(s[1..]);
    }
  }

  /** Lower-casing keeps characters that are not whitespace out of it, and leaves no upper
      case. */
  lemma LowerEnds(t: string)
    requires t != [] ==> t[0] !in JS_WHITESPACE && t[|t| - 1] !in JS_WHITESPACE
    ensures var l := Lower(t);
      && (l != [] ==> l[0] !in JS_WHITESPACE && l[|l| - 1] !in JS_WHITESPACE)
      && forall k :: 0 <= k < |l| ==> !IsUpper(l[k])
  {
  }

  /** The normalised query has no whitespace at either end, no upper case and no runs. */
  lemma NormalizeShape(query: Option<string>)
    ensures Normalized(NormalizeQuery(query))
  {
    var raw := if query.Some? then query.value else "";
    var t := Trim(raw, JS_WHITESPACE);
    LowerEnds(t);
    var l := Lower(t);
    CollapseNoRuns(l);
    CollapseLower(l);
    if l != [] {
      CollapseLast(l);
    }
  }

  /** Normalising a normalised query changes nothing. */
  lemma NormalizeIdempotent(query: Option<string>)
    ensures NormalizeQuery(Some(NormalizeQuery(query))) == NormalizeQuery(query)
  {
    var q := NormalizeQuery(query);
    NormalizeShape(query);
    var t := Trim(q, JS_WHITESPACE);
    assert t == q;
    assert Lower(t) == q;
    CollapseFixed(q);
  }

  // ---------------------------------------------------------------------------------
  // Paging parameters

  const MAX_PAGE_SIZE: int := 100
  const ACCURACY: string := "accuracy"
  const LIKE: string := "like"

  /** `Math.max(1, page)`. */
  function CurrentPage(page: int): (r: int)
    ensures r >= 1
    ensures page >= 1 ==> r == page
  {
    if page < 1 then 1 else page
  }

  /** `Math.min(Math.max(size, 1), 100)`. */
  function PageSize(size: int): (r: int)
    ensures 1 <= r <= MAX_PAGE_SIZE
    ensures 1 <= size <= MAX_PAGE_SIZE ==> r == size
  {
    var atLeastOne := if size < 1 then 1 else size;
    if atLeastOne > MAX_PAGE_SIZE then MAX_PAGE_SIZE else atLeastOne
  }

  /** `(currentPage - 1) * pageSize`. */
  function Offset(page: int, size: int): (r: int)
    ensures r >= 0 && r % PageSize(size) == 0
    ensures page <= 1 ==> r == 0
  {
    var p, n := CurrentPage(page) - 1, PageSize(size);
    Arith.MulNonNeg(p, n);
    Arith.MulDivExact(p, n);
    p * n
  }

  /** `allowedSorts.includes(sort) ? sort : "accuracy"`. */
  function ValidSort(sort: string): (r: string)
    ensures r == ACCURACY || r == LIKE
    ensures r == sort <==> sort == ACCURACY || sort == LIKE
  {
    if sort == ACCURACY || sort == LIKE then sort else ACCURACY
  }

  /** The clamps: a page of at least 1, a size from 1 to 100, a non-negative offset of whole
      pages; parameters already in range are kept. */
  lemma PagingBounds(page: int, size: int)
    ensures CurrentPage(page) >= 1 && 1 <= PageSize(size) <= MAX_PAGE_SIZE
    ensures Offset(page, size) >= 0 && Offset(page, size) % PageSize(size) == 0
    ensures page >= 1 ==> CurrentPage(page) == page
    ensures 1 <= size <= MAX_PAGE_SIZE ==> PageSize(size) == size
  {
    var p, n := CurrentPage(page) - 1, PageSize(size);
    assert p * n >= 0 && (p * n) % n == 0 by {
      Arith.MulNonNeg(p, n);
      Arith.MulDivExact(p, n);
    }
  }

  /** The sort is "accuracy" or "like", and is the requested one exactly when that is one of
      the two. */
  lemma SortFallback(sort: string)
    ensures ValidSort(sort) == ACCURACY || ValidSort(sort) == LIKE
    ensures ValidSort(sort) == sort <==> sort == ACCURACY || sort == LIKE
  {
  }

  // ---------------------------------------------------------------------------------
  // The two orders

  /** The ids of one page: JavaScript's `slice(offset, offset + pageSize)`. */
  function PageIds(ids: seq<int>, offset: nat, pageSize: nat): (r: seq<int>)
    ensures |r| <= pageSize
    ensures r != [] ==> offset + |r| <= |ids|
    ensures forall k :: 0 <= k < |r| ==> r[k] == ids[offset + k]
  {
    if offset >= |ids| then [] else if offset + pageSize >= |ids| then ids[offset..] else ids[offset..offset + pageSize]
  }

  /** The images of the ids, in the order of the ids; ids without an image are dropped. */
  function Ordered(images: seq<Image>, ids: seq<int>): (r: seq<Image>)
    ensures |r| <= |ids|
  {
    if ids == [] then []
    else
      var init := Ordered(images, ids[..|ids| - 1]);
      match Find(images, ids[|ids| - 1])
      case Some(image) => init + [image]
      case None => init
  }

  /** The images whose id is among the ids, in table order. */
  function Matching(images: seq<Image>, ids: seq<int>): (r: seq<Image>)
    ensures |r| <= |images|
    ensures forall k :: 0 <= k < |r| ==> r[k].imageId in ids
  {
    if images == [] then []
    else
      var last := images[|images| - 1];
      Matching(images[..|images| - 1], ids) + (if last.imageId in ids then [last] else [])
  }

  /** `findMany` with `orderBy: { like_cnt: "desc" }, skip: offset, take: pageSize`. */
  function LikePage(images: seq<Image>, ids: seq<int>, offset: nat, pageSize: nat): (r: seq<Image>)
    ensures |r| <= pageSize
    ensures |r| <= |Matching(images, ids)|
    ensures offset >= |Matching(images, ids)| ==> r == []
  {
    var sorted := SortBy(Matching(images, ids), (i: Image) => -i.likeCnt);
    var rest := if offset >= |sorted| then [] else sorted[offset..];
    if |rest| <= pageSize then rest else rest[..pageSize]
  }

  // ---------------------------------------------------------------------------------
  // search

  datatype SearchRequest = SearchRequest(query: Option<string>, page: int, size: int, sort: string)

  /** The answer: the page's images, the number of candidates, and the paging used. */
  datatype SearchPage = SearchPage(items: seq<Image>, total: int, page: int, size: int, sort: string)

  const EMPTY_QUERY: string := "검색어를 입력해주세요."
  const NO_RESULTS: string := "검색 결과가 없습니다."
  const NO_MORE_RESULTS: string := "더 이상 결과가 없습니다."
  /** The message the framework gives an exception that is not an HTTP exception. */
  const INTERNAL_ERROR: string := "Internal server error"

  /** `search`, reading the ranked ids from the AI's `recommendations`. */
  function Search(req: SearchRequest, ai: string -> Result<seq<int>, string>, images: seq<Image>): (r: Result<SearchPage, ServiceError>)
    ensures NormalizeQuery(req.query) == [] ==> r == Failure(BadRequest(EMPTY_QUERY))
    ensures r.Success? ==> NormalizeQuery(req.query) != [] && ai(NormalizeQuery(req.query)).Success?
    ensures r.Success? ==> r.value.total == |ai(NormalizeQuery(req.query)).value| > 0
    ensures r.Success? ==> r.value.page == CurrentPage(req.page) && r.value.size == PageSize(req.size) && r.value.sort == ValidSort(req.sort)
  {
    var cleaned := NormalizeQuery(req.query);
    var currentPage, pageSize, sort := CurrentPage(req.page), PageSize(req.size), ValidSort(req.sort);
    var offset := Offset(req.page, req.size);
    if cleaned == [] then Failure(BadRequest(EMPTY_QUERY))
    else
      match ai(cleaned)
      case Failure(message) => Failure(InternalServerError(message))
      case Success(ids) =>
        if ids == [] then Failure(NotFound(NO_RESULTS))
        else if offset >= |ids| then Failure(NotFound(NO_MORE_RESULTS))
        else
          PagingBounds(req.page, req.size);
          var items := if sort == ACCURACY then Ordered(images, PageIds(ids, offset, pageSize))
                       else LikePage(images, ids, offset, pageSize);
          Success(SearchPage(items, |ids|, currentPage, pageSize, sort))
  }

  /** `search` as written: it reads `aiRes.candidates`, a field the AI client's response does
      not have, so `.length` of undefined throws a TypeError once the AI call succeeds. */
  function SearchAsWritten(req: SearchRequest, ai: string -> Result<seq<int>, string>, images: seq<Image>): (r: Result<SearchPage, ServiceError>)
    ensures r.Failure?
    ensures NormalizeQuery(req.query) == [] || ai(NormalizeQuery(req.query)).Failure? ==> r == Search(req, ai, images)
  {
    var cleaned := NormalizeQuery(req.query);
    if cleaned == [] then Failure(BadRequest(EMPTY_QUERY))
    else
      match ai(cleaned)
      case Failure(message) => Failure(InternalServerError(message))
      case Success(_) => Failure(InternalServerError(INTERNAL_ERROR))
  }

  // ---------------------------------------------------------------------------------
  // Properties

  /** As written no search succeeds: a query the AI answers, even with results, ends in an
      internal server error. */
  lemma AsWrittenNeverSucceeds(req: SearchRequest, ai: string -> Result<seq<int>, string>, images: seq<Image>)
    ensures SearchAsWritten(req, ai, images).Failure?
    ensures NormalizeQuery(req.query) != [] && ai(NormalizeQuery(req.query)).Success? ==>
      SearchAsWritten(req, ai, images) == Failure(InternalServerError(INTERNAL_ERROR))
  {
  }

  /** The corrected search answers a query the AI ranks at least one image for. */
  lemma CorrectedAnswers(req: SearchRequest, ai: string -> Result<seq<int>, string>, images: seq<Image>)
    requires NormalizeQuery(req.query) != []
    requires ai(NormalizeQuery(req.query)).Success? && ai(NormalizeQuery(req.query)).value != []
    requires req.page <= 1
    ensures Search(req, ai, images).Success?
  {
    PagingBounds(req.page, req.size);
  }

  /** An empty normalised query is a BadRequest whatever the AI would answer: the AI is not
      called. */
  lemma EmptyQueryRejected(req: SearchRequest, ai1: string -> Result<seq<int>, string>, ai2: string -> Result<seq<int>, string>, images: seq<Image>)
    requires NormalizeQuery(req.query) == []
    ensures Search(req, ai1, images) == Search(req, ai2, images) == Failure(BadRequest(EMPTY_QUERY))
  {
  }

  /** The errors after the AI call: NotFound for no candidates and for an offset past them,
      the AI client's own failure otherwise. */
  lemma SearchErrors(req: SearchRequest, ai: string -> Result<seq<int>, string>, images: seq<Image>)
    requires NormalizeQuery(req.query) != []
    ensures var answer := ai(NormalizeQuery(req.query));
      var r := Search(req, ai, images);
      && (answer.Failure? ==> r == Failure(InternalServerError(answer.error)))
      && (answer == Success([]) ==> r == Failure(NotFound(NO_RESULTS)))
      && (answer.Success? && answer.value != [] && Offset(req.page, req.size) >= |answer.value| ==>
            r == Failure(NotFound(NO_MORE_RESULTS)))
      && (r.Success? <==> answer.Success? && 0 <= Offset(req.page, req.size) < |answer.value|)
  {
    PagingBounds(req.page, req.size);
  }

  /** A successful answer reports the number of candidates and the clamped paging. */
  lemma SearchAnswer(req: SearchRequest, ai: string -> Result<seq<int>, string>, images: seq<Image>)
    requires Search(req, ai, images).Success?
    ensures var r := Search(req, ai, images).value;
      && ai(NormalizeQuery(req.query)).Success?
      && r.total == |ai(NormalizeQuery(req.query)).value|
      && r.page == CurrentPage(req.page) && r.size == PageSize(req.size) && r.sort == ValidSort(req.sort)
      && |r.items| <= r.size
  {
    var ids := ai(NormalizeQuery(req.query)).value;
    PagingBounds(req.page, req.size);
    var offset, pageSize := Offset(req.page, req.size), PageSize(req.size);
    PageIdsBound(ids, offset, pageSize);
  }

  lemma PageIdsBound(ids: seq<int>, offset: nat, pageSize: nat)
    ensures |PageIds(ids, offset, pageSize)| <= pageSize
  {
  }

  /** Accuracy order is AI order: the images of a list of ids are those of its first part
      followed by those of its second. */
  lemma {:induction false} OrderedAppend(images: seq<Image>, a: seq<int>, b: seq<int>)
    ensures Ordered(images, a + b) == Ordered(images, a) + Ordered(images, b)
    decreases |b|
  {
    if b == [] {
      assert a + b == a;
    } else {
      var last := |b| - 1;
      assert (a + b)[..|a + b| - 1] == a + b[..last];
      OrderedAppend(images, a, b[..last]);
    }
  }

  /** When every id has an image, the k-th item is the image of the k-th id. */
  lemma {:induction false} OrderedAllFound(images: seq<Image>, ids: seq<int>)
    requires forall k :: 0 <= k < |ids| ==> Find(images, ids[k]).Some?
    ensures |Ordered(images, ids)| == |ids|
    ensures forall k :: 0 <= k < |ids| ==> Ordered(images, ids)[k] == Find(images, ids[k]).value
  {
    if ids != [] {
      var prefix := ids[..|ids| - 1];
      assert forall k :: 0 <= k < |prefix| ==> prefix[k] == ids[k];
      OrderedAllFound(images, prefix);
    }
  }

  /** Every accuracy item is an image of the table with one of the ids. */
  lemma {:induction false} OrderedItems(images: seq<Image>, ids: seq<int>)
    ensures forall x :: x in Ordered(images, ids) ==> x in images && x.imageId in ids
  {
    if ids != [] {
      var prefix := ids[..|ids| - 1];
      OrderedItems(images, prefix);
      FindSpec(images, ids[|ids| - 1]);
      assert forall i :: i in prefix ==> i in ids;
    }
  }

  /** The images among the ids are exactly the table's images with one of the ids. */
  lemma {:induction false} MatchingMembers(images: seq<Image>, ids: seq<int>)
    ensures forall x :: x in Matching(images, ids) <==> x in images && x.imageId in ids
  {
    if images != [] {
      var prefix := images[..|images| - 1];
      MatchingMembers(prefix, ids);
      assert images == prefix + [images[|images| - 1]];
    }
  }

  /** Like order: at most a page, in non-increasing like order, each a table image with one of
      the candidate ids. */
  lemma LikePageOrder(images: seq<Image>, ids: seq<int>, offset: nat, pageSize: nat)
    ensures var items := LikePage(images, ids, offset, pageSize);
      && |items| <= pageSize
      && (forall i, j :: 0 <= i < j < |items| ==> items[i].likeCnt >= items[j].likeCnt)
      && forall x :: x in items ==> x in images && x.imageId in ids
  {
    var key := (i: Image) => -i.likeCnt;
    var matching := Matching(images, ids);
    var sorted := SortBy(matching, key);
    var items := LikePage(images, ids, offset, pageSize);
    MatchingMembers(images, ids);
    forall x | x in items
      ensures x in images && x.imageId in ids
    {
      var k :| 0 <= k < |items| && items[k] == x;
      assert x == sorted[offset + k];
      assert x in multiset(sorted);
    }
    forall i, j | 0 <= i < j < |items|
      ensures items[i].likeCnt >= items[j].likeCnt
    {
      assert items[i] == sorted[offset + i] && items[j] == sorted[offset + j];
      assert key(sorted[offset + i]) <= key(sorted[offset + j]);
    }
  }

  /** The images of a list of ids: table images with one of the ids and, when every id has
      an image, exactly one per id with that id, in the order of the ids. */
  lemma OrderedFollowsIds(images: seq<Image>, ids: seq<int>)
    ensures forall x :: x in Ordered(images, ids) ==> x in images && x.imageId in ids
    ensures (forall k :: 0 <= k < |ids| ==> Find(images, ids[k]).Some?) ==>
      |Ordered(images, ids)| == |ids| && forall k :: 0 <= k < |ids| ==> Ordered(images, ids)[k].imageId == ids[k]
  {
    OrderedItems(images, ids);
    if forall k :: 0 <= k < |ids| ==> Find(images, ids[k]).Some? {
      OrderedAllFound(images, ids);
      forall k | 0 <= k < |ids|
        ensures Ordered(images, ids)[k].imageId == ids[k]
      {
        FindSpec(images, ids[k]);
      }
    }
  }

  /** In accuracy order the items are the images of the page's slice of the candidate ids, in
      the AI's order, and in like order they are the like-sorted page of the candidates. */
  lemma SearchItems(req: SearchRequest, ai: string -> Result<seq<int>, string>, images: seq<Image>)
    requires Search(req, ai, images).Success?
    ensures var ids := ai(NormalizeQuery(req.query)).value;
      var offset, pageSize := Offset(req.page, req.size), PageSize(req.size);
      var items := Search(req, ai, images).value.items;
      && 0 <= offset < |ids| && pageSize >= 1
      && (ValidSort(req.sort) == ACCURACY ==> items == Ordered(images, PageIds(ids, offset, pageSize)))
      && (ValidSort(req.sort) == LIKE ==> items == LikePage(images, ids, offset, pageSize))
  {
    PagingBounds(req.page, req.size);
  }
}
