/** `get_meta` of apps/ai/utils/dbhandler.py: the records of the requested image ids, in the
    order requested. The Image table is a map from image id to the stored caption, which may
    be NULL; the connection to the database is not part of this model. */
module MetaLookup {
  import opened Wrappers

  /** `ImageTrivial`: an image id and its caption, declared as a plain string. */
  datatype ImageTrivial = ImageTrivial(imageId: int, caption: string)

  /** The validation error raised when `ImageTrivial` is built from a row whose caption is
      NULL: the caption field does not accept None. */
  datatype MetaError = CaptionNotString(imageId: int)

  /** The id has a row, and that row's caption is NULL. */
  predicate NullCaption(records: map<int, Option<string>>, id: int) {
    id in records && records[id].None?
  }

  /** The records found for the ids, in input order; ids without a record are dropped, and the
      first found row with a NULL caption ends the lookup with an error. */
  function Hydrate(records: map<int, Option<string>>, inputs: seq<int>): (r: Result<seq<ImageTrivial>, MetaError>)
    ensures r.Success? ==> |r.value| <= |inputs|
    ensures r.Failure? ==> NullCaption(records, r.error.imageId) && r.error.imageId in inputs
  {
    if inputs == [] then Success([])
    else
      var prefix := inputs[..|inputs| - 1];
      var id := inputs[|inputs| - 1];
      assert forall x :: x in prefix ==> x in inputs;
      match Hydrate(records, prefix)
      case Failure(e) => Failure(e)
      case Success(init) =>
        if id !in records then Success(init)
        else match records[id]
          case None => Failure(CaptionNotString(id))
          case Some(caption) => Success(init + [ImageTrivial(id, caption)])
  }

  /** `get_meta`: one `find_unique` per input id, appending what is found. */
  method GetMeta(records: map<int, Option<string>>, inputs: seq<int>) returns (r: Result<seq<ImageTrivial>, MetaError>)
    ensures r == Hydrate(records, inputs)
  {
    var rets := [];
    for k := 0 to |inputs|
      invariant Hydrate(records, inputs[..k]) == Success(rets)
    {
      var id := inputs[k];
      assert inputs[..k + 1][..k] == inputs[..k];
      if id in records {
        var iImage := records[id];
        if iImage.None? {
          assert inputs == inputs[..k + 1] + inputs[k + 1..];
          HydrateAppend(records, inputs[..k + 1], inputs[k + 1..]);
          return Failure(CaptionNotString(id));
        }
        rets := rets + [ImageTrivial(id, iImage.value)];
      }
    }
    assert inputs[..|inputs|] == inputs;
    r := Success(rets);
  }

  // ---------------------------------------------------------------------------------
  // Properties

  /** Output order follows input order: looking up two lists one after the other gives the
      two results one after the other, and an error in the first list wins over the second. */
  lemma {:induction false} HydrateAppend(records: map<int, Option<string>>, a: seq<int>, b: seq<int>)
    ensures Hydrate(records, a + b) ==
      if Hydrate(records, a).Failure? then Hydrate(records, a)
      else if Hydrate(records, b).Failure? then Hydrate(records, b)
      else Success(Hydrate(records, a).value + Hydrate(records, b).value)
    decreases |b|
  {
    if b == [] {
      assert a + b == a;
      if Hydrate(records, a).Success? {
        assert Hydrate(records, a).value + [] == Hydrate(records, a).value;
      }
    } else {
      var last := |b| - 1;
      assert (a + b)[..|a + b| - 1] == a + b[..last];
      assert (a + b)[|a + b| - 1] == b[last];
      HydrateAppend(records, a, b[..last]);
      if Hydrate(records, a).Success? && Hydrate(records, b[..last]).Success? {
        var x, y := Hydrate(records, a).value, Hydrate(records, b[..last]).value;
        var id := b[last];
        if id in records && records[id].Some? {
          assert x + (y + [ImageTrivial(id, records[id].value)]) == (x + y) + [ImageTrivial(id, records[id].value)];
        }
      }
    }
  }

  /** The lookup fails exactly when some asked id has a row with a NULL caption, and then the
      error names the first such id in input order. */
  lemma {:induction false} HydrateFails(records: map<int, Option<string>>, inputs: seq<int>)
    ensures Hydrate(records, inputs).Failure? <==> exists k :: 0 <= k < |inputs| && NullCaption(records, inputs[k])
    ensures Hydrate(records, inputs).Failure? ==>
      exists k :: (0 <= k < |inputs| && inputs[k] == Hydrate(records, inputs).error.imageId
        && forall j :: 0 <= j < k ==> !NullCaption(records, inputs[j]))
  {
    if inputs != [] {
      var prefix := inputs[..|inputs| - 1];
      var id := inputs[|inputs| - 1];
      HydrateFails(records, prefix);
      assert forall k :: 0 <= k < |prefix| ==> prefix[k] == inputs[k];
      if Hydrate(records, prefix).Success? && NullCaption(records, id) {
        assert forall j :: 0 <= j < |prefix| ==> !NullCaption(records, inputs[j]);
      }
      if Hydrate(records, inputs).Failure? {
        assert NullCaption(records, inputs[|inputs| - 1]) || exists k :: 0 <= k < |prefix| && NullCaption(records, prefix[k]);
      }
    }
  }

  /** Every item is a stored record, with the id asked for and the stored caption. */
  lemma {:induction false} HydrateItems(records: map<int, Option<string>>, inputs: seq<int>)
    ensures Hydrate(records, inputs).Success? ==> forall item :: item in Hydrate(records, inputs).value ==>
      item.imageId in records && item.imageId in inputs && records[item.imageId] == Some(item.caption)
  {
    if inputs != [] {
      var prefix := inputs[..|inputs| - 1];
      HydrateItems(records, prefix);
      assert forall x :: x in prefix ==> x in inputs;
    }
  }

  /** The number of ids of a list that have a record. */
  function Found(records: map<int, Option<string>>, inputs: seq<int>): (r: nat)
    ensures r <= |inputs|
    ensures (forall k :: 0 <= k < |inputs| ==> inputs[k] !in records) ==> r == 0
  {
    if inputs == [] then 0
    else Found(records, inputs[..|inputs| - 1]) + (if inputs[|inputs| - 1] in records then 1 else 0)
  }

  /** Missing ids are dropped without error: there is one item per id that has a record, and
      the result is as long as the input exactly when every id has one. */
  lemma {:induction false} HydrateLength(records: map<int, Option<string>>, inputs: seq<int>)
    ensures Hydrate(records, inputs).Success? ==> |Hydrate(records, inputs).value| == Found(records, inputs)
    ensures Hydrate(records, inputs).Success? ==>
      (|Hydrate(records, inputs).value| == |inputs| <==> forall k :: 0 <= k < |inputs| ==> inputs[k] in records)
  {
    if inputs != [] {
      var prefix := inputs[..|inputs| - 1];
      HydrateLength(records, prefix);
      FoundBound(records, prefix);
      assert forall k :: 0 <= k < |prefix| ==> prefix[k] == inputs[k];
    }
  }

  lemma {:induction false} FoundBound(records: map<int, Option<string>>, inputs: seq<int>)
    ensures Found(records, inputs) <= |inputs|
  {
    if inputs != [] {
      FoundBound(records, inputs[..|inputs| - 1]);
    }
  }

  /** There is no deduplication: an id with a record yields as many items as it occurs in the
      input, an id without one yields none. */
  lemma {:induction false} HydrateMultiplicity(records: map<int, Option<string>>, inputs: seq<int>, x: int)
    ensures Hydrate(records, inputs).Success? ==>
      multiset(Ids(Hydrate(records, inputs).value))[x] == if x in records then multiset(inputs)[x] else 0
  {
    if inputs != [] {
      var prefix := inputs[..|inputs| - 1];
      var id := inputs[|inputs| - 1];
      HydrateMultiplicity(records, prefix, x);
      assert inputs == prefix + [id];
      if Hydrate(records, inputs).Success? && id in records {
        IdsAppend(Hydrate(records, prefix).value, ImageTrivial(id, records[id].value));
      }
    }
  }

  /** The ids of the items, in order. */
  function Ids(items: seq<ImageTrivial>): (ids: seq<int>)
    ensures |ids| == |items|
  {
    if items == [] then [] else Ids(items[..|items| - 1]) + [items[|items| - 1].imageId]
  }

  lemma IdsAppend(items: seq<ImageTrivial>, item: ImageTrivial)
    ensures Ids(items + [item]) == Ids(items) + [item.imageId]
  {
    assert (items + [item])[..|items|] == items;
  }
}
