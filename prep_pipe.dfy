/** The operator console of apps/ai/preppipe.py: the id-selection parser used by the
    management menus, the paging arithmetic and navigation of the database viewer, and the
    total shown by the status screen. Menus, screen clearing and printing are not modelled. */
module PrepPipe {
  import opened Wrappers
  import opened Strings
  import opened SortedSeqs
  import PrepDb
  import Arith

  // ---------------------------------------------------------------------------------
  // parse_id_selection

  /** The `ValueError`s of `parse_id_selection`, each carrying the stripped part. */
  datatype SelectionError =
    | StartAfterEnd(part: string)     // "Invalid range (start > end)"
    | BadRangeFormat(part: string)    // "Invalid range format"
    | BadId(part: string)             // "Invalid ID"

  /** The ids a range part `start-end` contributes, once both sides are stripped. */
  function RangeIds(start: string, end: string, part: string): (r: Result<seq<int>, SelectionError>)
    ensures r.Success? ==> StrictlyIncreasing(r.value)
  {
    if AllDigits(start) && AllDigits(end) then
      var s, e := DigitsValue(start), DigitsValue(end);
      if s <= e then Success(Interval(s, e)) else Failure(StartAfterEnd(part))
    else Failure(BadRangeFormat(part))
  }

  /** The ids one stripped part contributes, in increasing order: nothing for an empty part,
      the whole interval for `a-b` split at the first dash, the single id otherwise. */
  function PartIds(part: string): (r: Result<seq<int>, SelectionError>)
    ensures r.Success? ==> StrictlyIncreasing(r.value)
  {
    if part == [] then Success([])
    else if '-' in part then
      var dash := FirstIndex(part, '-');
      RangeIds(Trim(part[..dash], PY_WHITESPACE), Trim(part[dash + 1..], PY_WHITESPACE), part)
    else if AllDigits(part) then Success([DigitsValue(part)])
    else Failure(BadId(part))
  }

  /** What each part contributes, in order: every success is a sorted id list. */
  predicate Contributions(cs: seq<Result<seq<int>, SelectionError>>) {
    forall k :: 0 <= k < |cs| && cs[k].Success? ==> StrictlyIncreasing(cs[k].value)
  }

  /** The selection after the first n parts' contributions: the first failing part decides
      the error, otherwise the sorted union of what the parts contribute. */
  function Collect(cs: seq<Result<seq<int>, SelectionError>>, n: nat): (r: Result<seq<int>, SelectionError>)
    requires n <= |cs| && Contributions(cs)
    ensures r.Success? ==> StrictlyIncreasing(r.value)
  {
    if n == 0 then Success([])
    else
      match Collect(cs, n - 1)
      case Failure(e) => Failure(e)
      case Success(ids) =>
        match cs[n - 1]
        case Failure(e) => Failure(e)
        case Success(more) => Success(Merge(ids, more))
  }

  /** The contributions of the parts, each stripped before it is parsed. */
  function PartsIds(parts: seq<string>): (cs: seq<Result<seq<int>, SelectionError>>)
    ensures |cs| == |parts| && Contributions(cs)
  {
    seq(|parts|, k requires 0 <= k < |parts| => PartIds(Trim(parts[k], PY_WHITESPACE)))
  }

  lemma PartsIdsAt(parts: seq<string>, k: nat)
    requires k < |parts|
    ensures PartsIds(parts)[k] == PartIds(Trim(parts[k], PY_WHITESPACE))
  {
  }

  /** The result `parse_id_selection` specifies for a whole selection string. */
  function Selection(selection: string): (r: Result<seq<int>, SelectionError>)
    ensures r.Success? ==> StrictlyIncreasing(r.value)
  {
    var cs := PartsIds(Split(selection, ','));
    Collect(cs, |cs|)
  }

  /** `parse_id_selection`: split on commas, strip each part, skip empty parts, add a range
      or a single id to the set, raise on the first malformed part, return the set sorted. */
  method ParseIdSelection(selection: string) returns (r: Result<seq<int>, SelectionError>)
    ensures r == Selection(selection)
    ensures r.Success? ==> StrictlyIncreasing(r.value)
  {
    var parts := Split(selection, ',');
    ghost var cs := PartsIds(parts);
    assert Selection(selection) == Collect(cs, |parts|);
    var ids: seq<int> := [];
    var k := 0;
    while k < |parts|
      invariant 0 <= k <= |parts|
      invariant Collect(cs, k) == Success(ids)
    {
      var part := Trim(parts[k], PY_WHITESPACE);
      PartsIdsAt(parts, k);
      CollectStep(cs, k, ids);
      k := k + 1;
      assert cs[k - 1] == PartIds(part);
      if part != [] {
        var more := ParsePart(part);
        if more.Failure? {
          assert Collect(cs, k) == Failure(more.error);
          CollectFailsFrom(cs, k, |cs|);
          return Failure(more.error);
        }
        ids := Merge(ids, more.value);
      }
    }
    assert k == |parts|;
    r := Success(ids);
  }

  /** The body of the loop of `parse_id_selection` for one stripped, non-empty part: a range
      `start-end` split at the first dash with both sides stripped, or a single id. */
  method ParsePart(part: string) returns (r: Result<seq<int>, SelectionError>)
    requires part != []
    ensures r == PartIds(part)
  {
    if '-' in part {
      var dash := FirstIndex(part, '-');
      var start, end := part[..dash], part[dash + 1..];
      start, end := Trim(start, PY_WHITESPACE), Trim(end, PY_WHITESPACE);
      if AllDigits(start) && AllDigits(end) {
        var s, e := DigitsValue(start), DigitsValue(end);
        if s <= e {
          r := Success(Interval(s, e));
        } else {
          r := Failure(StartAfterEnd(part));
        }
      } else {
        r := Failure(BadRangeFormat(part));
      }
    } else if AllDigits(part) {
      r := Success([DigitsValue(part)]);
    } else {
      r := Failure(BadId(part));
    }
  }

  /** One more part: an empty contribution keeps the ids, a failing one decides the error,
      any other is merged in. */
  lemma CollectStep(cs: seq<Result<seq<int>, SelectionError>>, k: nat, ids: seq<int>)
    requires k < |cs| && Contributions(cs) && Collect(cs, k) == Success(ids)
    ensures cs[k] == Success([]) ==> Collect(cs, k + 1) == Success(ids)
    ensures cs[k].Failure? ==> Collect(cs, k + 1) == Failure(cs[k].error)
    ensures cs[k].Success? ==> Collect(cs, k + 1) == Success(Merge(ids, cs[k].value))
  {
    if cs[k] == Success([]) {
      assert Merge(ids, []) == ids;
    }
  }

  /** Once a prefix fails, every longer prefix fails with the same error. */
  lemma {:induction false} CollectFailsFrom(cs: seq<Result<seq<int>, SelectionError>>, m: nat, n: nat)
    requires m <= n <= |cs| && Contributions(cs) && Collect(cs, m).Failure?
    ensures Collect(cs, n) == Collect(cs, m)
    decreases n - m
  {
    if m < n {
      CollectFailsFrom(cs, m, n - 1);
    }
  }

  /** A selection is accepted exactly when every part is. */
  lemma {:induction false} CollectAccepts(cs: seq<Result<seq<int>, SelectionError>>, n: nat)
    requires n <= |cs| && Contributions(cs)
    ensures Collect(cs, n).Success? <==> forall k :: 0 <= k < n ==> cs[k].Success?
  {
    if n > 0 {
      CollectAccepts(cs, n - 1);
    }
  }

  /** An accepted selection holds exactly the ids some part contributes. */
  lemma {:induction false} CollectMembers(cs: seq<Result<seq<int>, SelectionError>>, n: nat, x: int)
    requires n <= |cs| && Contributions(cs) && Collect(cs, n).Success?
    ensures x in Collect(cs, n).value <==>
      exists k :: 0 <= k < n && cs[k].Success? && x in cs[k].value
  {
    if n > 0 {
      var prev := Collect(cs, n - 1);
      assert prev.Success? && cs[n - 1].Success?;
      CollectMembers(cs, n - 1, x);
      assert Collect(cs, n).value == Merge(prev.value, cs[n - 1].value);
    }
  }

  /** A rejected selection reports the error of its first rejected part. */
  lemma {:induction false} CollectFirstError(cs: seq<Result<seq<int>, SelectionError>>, n: nat)
    requires n <= |cs| && Contributions(cs) && Collect(cs, n).Failure?
    ensures exists k :: (0 <= k < n
      && cs[k] == Failure(Collect(cs, n).error)
      && forall j :: 0 <= j < k ==> cs[j].Success?)
  {
    var prev := Collect(cs, n - 1);
    if prev.Failure? {
      CollectFirstError(cs, n - 1);
      var k :| 0 <= k < n - 1
        && cs[k] == Failure(prev.error)
        && forall j :: 0 <= j < k ==> cs[j].Success?;
      assert Collect(cs, n).error == prev.error;
    } else {
      CollectAccepts(cs, n - 1);
      assert cs[n - 1] == Failure(Collect(cs, n).error);
    }
  }

  /** The order of the parts does not matter: two part lists that are permutations of each
      other and are both accepted give the same sorted list. */
  lemma PartOrderIrrelevant(parts: seq<string>, other: seq<string>)
    requires multiset(parts) == multiset(other)
    requires Collect(PartsIds(parts), |parts|).Success? && Collect(PartsIds(other), |other|).Success?
    ensures Collect(PartsIds(parts), |parts|) == Collect(PartsIds(other), |other|)
  {
    var xs, ys := Collect(PartsIds(parts), |parts|).value, Collect(PartsIds(other), |other|).value;
    forall x ensures x in xs <==> x in ys {
      CollectedElsewhere(parts, other, x);
      CollectedElsewhere(other, parts, x);
    }
    SortedUnique(xs, ys);
  }

  /** An id selected by one list of parts is selected by any permutation of it. */
  lemma CollectedElsewhere(parts: seq<string>, other: seq<string>, x: int)
    requires multiset(parts) == multiset(other)
    requires Collect(PartsIds(parts), |parts|).Success? && Collect(PartsIds(other), |other|).Success?
    ensures x in Collect(PartsIds(parts), |parts|).value ==> x in Collect(PartsIds(other), |other|).value
  {
    var cs, ds := PartsIds(parts), PartsIds(other);
    CollectMembers(cs, |parts|, x);
    CollectMembers(ds, |other|, x);
    if x in Collect(cs, |parts|).value {
      var k :| 0 <= k < |parts| && cs[k].Success? && x in cs[k].value;
      var j := SamePartElsewhere(parts, other, k);
    }
  }

  /** A part of one list occurs in a permutation of it, where it contributes the same. */
  lemma SamePartElsewhere(parts: seq<string>, other: seq<string>, k: nat) returns (j: nat)
    requires multiset(parts) == multiset(other) && k < |parts|
    ensures j < |other| && PartsIds(other)[j] == PartsIds(parts)[k]
  {
    assert parts[k] in multiset(other);
    j :| 0 <= j < |other| && other[j] == parts[k];
  }

  /** `a-b` of decimal numbers contributes every integer from a to b when a <= b and is
      rejected as a reversed range otherwise. */
  lemma RangePart(a: nat, b: nat)
    ensures var part := NatToString(a) + "-" + NatToString(b);
      PartIds(part) == if a <= b then Success(Interval(a, b)) else Failure(StartAfterEnd(part))
  {
    var sa, sb := NatToString(a), NatToString(b);
    var part := sa + "-" + sb;
    assert part[|sa|] == '-';
    forall i | 0 <= i < |sa| ensures sa[i] != '-' {
      assert IsDigit(sa[i]);
    }
    assert part[..|sa|] == sa;
    assert FirstIndex(part, '-') == |sa|;
    assert part[|sa| + 1..] == sb;
    DigitsUntrimmed(sa);
    DigitsUntrimmed(sb);
    assert PartIds(part) == RangeIds(sa, sb, part);
  }

  /** Stripping leaves a number untouched. */
  lemma DigitsUntrimmed(s: string)
    requires AllDigits(s)
    ensures Trim(s, PY_WHITESPACE) == s
  {
    assert IsDigit(s[0]) && IsDigit(s[|s| - 1]);
  }

  /** A part with a dash and a side that is not a number, such as "-5" or "1-2-3", is
      rejected as a malformed range. */
  lemma MalformedRangePart(part: string, dash: nat)
    requires part != [] && dash < |part| && part[dash] == '-'
    requires '-' !in part[..dash]
    requires part[..dash] == [] || '-' in part[dash + 1..]
    ensures PartIds(part) == Failure(BadRangeFormat(part))
  {
    assert '-' in part;
    assert FirstIndex(part, '-') == dash;
    NotBothNumbers(part[..dash], part[dash + 1..]);
  }

  /** An empty left side, or a right side holding another dash, is not a pair of numbers
      once both sides are stripped. */
  lemma NotBothNumbers(before: string, after: string)
    requires before == [] || '-' in after
    ensures !AllDigits(Trim(before, PY_WHITESPACE)) || !AllDigits(Trim(after, PY_WHITESPACE))
  {
    if before != [] {
      var j :| 0 <= j < |after| && after[j] == '-';
      assert '-' !in PY_WHITESPACE;
      TrimKeeps(after, j);
      assert !IsDigit('-');
    }
  }

  /** Trimming never removes a character that is not whitespace. */
  lemma TrimKeeps(s: string, j: nat)
    requires j < |s| && s[j] !in PY_WHITESPACE
    ensures s[j] in Trim(s, PY_WHITESPACE)
    ensures !AllDigits(Trim(s, PY_WHITESPACE)) || IsDigit(s[j])
  {
    var t := TrimStart(s, PY_WHITESPACE);
    TrimStartSuffix(s, PY_WHITESPACE);
    assert j >= |s| - |t|;
    var u := TrimEnd(t, PY_WHITESPACE);
    TrimEndPrefix(t, PY_WHITESPACE);
    var jt := j - (|s| - |t|);
    assert t[jt] == s[j];
    assert jt < |u|;
    assert u[jt] == s[j];
  }

  /** A part without a dash that is not all digits is rejected as an invalid id. */
  lemma BadIdPart(part: string, j: nat)
    requires j < |part| && !IsDigit(part[j]) && '-' !in part
    ensures PartIds(part) == Failure(BadId(part))
  {
  }

  /** A blank selection selects nothing. */
  lemma BlankSelection(selection: string)
    requires forall k :: 0 <= k < |selection| ==> selection[k] in PY_WHITESPACE
    ensures Selection(selection) == Success([])
  {
    assert ',' !in PY_WHITESPACE;
    assert ',' !in selection;
    SplitWithoutSeparator(selection, ',');
    var cs := PartsIds([selection]);
    assert Trim(selection, PY_WHITESPACE) == [];
    assert cs[0] == Success([]);
    assert Collect(cs, 0) == Success([]);
    assert Merge([], []) == [];
  }

  /** Splitting a string that holds no separator gives the string itself. */
  lemma {:induction false} SplitWithoutSeparator(s: string, c: char)
    requires c !in s
    ensures Split(s, c) == [s]
  {
    if s != [] {
      assert c !in s[1..];
      SplitWithoutSeparator(s[1..], c);
    }
  }

  // ---------------------------------------------------------------------------------
  // manage_db_viewer

  /** Rows per page of the viewer. */
  const VIEWER_PAGE_SIZE := 10

  /** `(total_images + page_size - 1) // page_size`: enough pages for every row, and no
      empty last page. */
  function TotalPages(total: nat, pageSize: nat): (pages: nat)
    requires pageSize > 0
    ensures total <= pages * pageSize
    ensures total > 0 ==> (pages - 1) * pageSize < total
    ensures total == 0 <==> pages == 0
  {
    var pages := (total + pageSize - 1) / pageSize;
    assert (total + pageSize - 1) == pages * pageSize + (total + pageSize - 1) % pageSize;
    pages
  }

  /** `offset = (current_page - 1) * page_size`. */
  function PageOffset(page: int, pageSize: nat): (r: int)
    ensures page >= 1 ==> r >= 0
    ensures page == 1 ==> r == 0
    ensures page >= 1 && pageSize > 0 ==> r % pageSize == 0
  {
    if page >= 1 && pageSize > 0 then
      Arith.MulNonNeg(page - 1, pageSize);
      Arith.MulDivExact(page - 1, pageSize);
      (page - 1) * pageSize
    else (page - 1) * pageSize
  }

  /** A page number in range starts at a row that exists, so every page shows something. */
  lemma PageInRangeShowsRows(total: nat, pageSize: nat, page: int)
    requires pageSize > 0 && 1 <= page <= TotalPages(total, pageSize)
    ensures 0 <= PageOffset(page, pageSize) < total
  {
    var pages := TotalPages(total, pageSize);
    assert (page - 1) * pageSize <= (pages - 1) * pageSize;
  }

  /** One answer at the viewer prompt; `Goto` carries the page number typed, or None when it
      is not an integer. */
  datatype ViewerAction = Next | Previous | Goto(pageNum: Option<int>) | Quit

  /** The navigation step: next and previous stop at the ends, a goto outside 1..total_pages
      or one that is not a number leaves the page where it was. */
  function Navigate(page: int, totalPages: nat, action: ViewerAction): (next: int)
    ensures 1 <= page <= totalPages ==> 1 <= next <= totalPages
    ensures action.Goto? && action.pageNum.Some? && 1 <= action.pageNum.value <= totalPages
      ==> next == action.pageNum.value
    ensures action.Goto? && (action.pageNum.None? || !(1 <= action.pageNum.value <= totalPages))
      ==> next == page
  {
    match action
    case Next => if page < totalPages then page + 1 else page
    case Previous => if page > 1 then page - 1 else page
    case Goto(num) => if num.Some? && 1 <= num.value <= totalPages then num.value else page
    case Quit => page
  }

  /** Next then previous returns to the page, unless the page was the last one. */
  lemma NextThenPrevious(page: int, totalPages: nat)
    requires 1 <= page < totalPages
    ensures Navigate(Navigate(page, totalPages, Next), totalPages, Previous) == page
  {
  }

  /** What one screen of the viewer shows. */
  datatype Screen = Screen(page: int, totalPages: nat, rows: seq<PrepDb.ImageRow>)

  /** A screen of the viewer: a page in range of the current page count, showing the rows
      of that page, of which there is at least one. */
  predicate Shows(db: PrepDb.Store, s: Screen)
    reads db
    requires db.Valid()
  {
    && s.totalPages == TotalPages(|db.images|, VIEWER_PAGE_SIZE)
    && 1 <= s.page <= s.totalPages
    && s.rows == db.GetPaginatedImages(VIEWER_PAGE_SIZE, PageOffset(s.page, VIEWER_PAGE_SIZE))
    && s.rows != []
  }

  /** The screen after an answer other than quit shows the page navigation leads to. */
  predicate Follows(s: Screen, action: ViewerAction, next: Screen) {
    action != Quit && next.page == Navigate(s.page, s.totalPages, action)
  }

  /** `manage_db_viewer` driven by the operator's answers: the screens shown, one per loop
      turn, until the answer is quit or the answers run out. An empty database shows none. */
  method ManageDbViewer(db: PrepDb.Store, actions: seq<ViewerAction>) returns (screens: seq<Screen>)
    requires db.Valid()
    ensures |db.images| == 0 <==> screens == []
    ensures |screens| <= |actions| + 1
    ensures screens != [] ==> screens[0].page == 1
    ensures forall k :: 0 <= k < |screens| ==> Shows(db, screens[k])
    ensures forall k :: 0 <= k < |screens| - 1 ==> Follows(screens[k], actions[k], screens[k + 1])
    ensures screens != [] ==> |screens| == |actions| + 1 || actions[|screens| - 1] == Quit
  {
    screens := [];
    var currentPage := 1;
    var k := 0;
    while true
      invariant 0 <= k <= |actions| && |screens| == k
      invariant |db.images| > 0 ==> 1 <= currentPage <= TotalPages(|db.images|, VIEWER_PAGE_SIZE)
      invariant k > 0 ==> currentPage == Navigate(screens[k - 1].page, screens[k - 1].totalPages, actions[k - 1])
      invariant k > 0 ==> |db.images| > 0 && screens[0].page == 1
      invariant k == 0 ==> currentPage == 1
      invariant forall j :: 0 <= j < k ==> Shows(db, screens[j])
      invariant forall j :: 0 <= j < k - 1 ==> Follows(screens[j], actions[j], screens[j + 1])
      invariant k > 0 ==> actions[k - 1] != Quit
      decreases |actions| - k
    {
      var totalImages := |db.images|;
      if totalImages == 0 {
        return;
      }
      var totalPages := TotalPages(totalImages, VIEWER_PAGE_SIZE);
      var offset := PageOffset(currentPage, VIEWER_PAGE_SIZE);
      PageInRangeShowsRows(totalImages, VIEWER_PAGE_SIZE, currentPage);
      var images := db.GetPaginatedImages(VIEWER_PAGE_SIZE, offset);
      screens := screens + [Screen(currentPage, totalPages, images)];
      if k == |actions| || actions[k] == Quit {
        return;
      }
      currentPage := Navigate(currentPage, totalPages, actions[k]);
      k := k + 1;
    }
  }

  // ---------------------------------------------------------------------------------
  // worker_dbstat

  /** The total of the status screen, `sum(stat_res.values())`: the number of rows. */
  method WorkerDbstat(db: PrepDb.Store) returns (total: nat)
    requires db.Valid()
    ensures total == |db.images|
  {
    var statRes := db.GetStatusCounts();
    total := PrepDb.Total(statRes);
  }
}
