/** `AiClientService.similarSearch` of apps/be/src/ai-client/ai-client.service.ts: the query is
    posted to the AI server, the answer's `count` and `recommendations` are copied into the
    result, the result's shape is checked by `isValidRes`, and every exception raised on the
    way leaves the service as an InternalServerErrorException.

    The HTTP call is the oracle `post(body)`, which gives the answer's body or the value the
    call throws. JavaScript values are modelled by the datatype Js; numbers are kept as reals
    and only their `typeof` matters here. */
module AiClient {
  import opened Wrappers

  /** A JavaScript value as JSON carries it, plus `undefined`. */
  datatype Js = Undefined | Null | Bool(b: bool) | Num(value: real) | Str(s: string) | Arr(elems: seq<Js>) | Obj(fields: map<string, Js>)

  /** The kinds of Error this service meets. */
  datatype ErrorKind = BadRequest | InternalServerError | TypeError | OtherError

  /** A thrown value: an instance of Error with its message, or any other value. */
  datatype Thrown = ErrorObject(kind: ErrorKind, message: string) | NonError

  const AI_COUNT: real := 10.0
  const FAILURE_PREFIX: string := "AI 서버 요청 실패: "
  const UNKNOWN_ERROR: string := "알 수 없는 오류"
  const INVALID_RESPONSE: string := "유효하지 않은 응답입니다."

  predicate Nullish(v: Js) {
    v.Undefined? || v.Null?
  }

  /** Property access `v.name` on a value that is not null or undefined: an object's field,
      `undefined` when it has none, and `undefined` on the other values for the names read
      here. */
  function Get(v: Js, name: string): (r: Js)
    requires !Nullish(v)
    ensures !v.Obj? || name !in v.fields ==> r.Undefined?
    ensures v.Obj? && name in v.fields ==> r == v.fields[name]
  {
    if v.Obj? && name in v.fields then v.fields[name] else Undefined
  }

  /** The TypeError reading `name` of null or undefined raises, with the message Node gives. */
  function ReadError(v: Js, name: string): Thrown
    requires Nullish(v)
  {
    ErrorObject(TypeError, "Cannot read properties of " + (if v.Null? then "null" else "undefined") + " (reading '" + name + "')")
  }

  /** The request body: the query as `text` and a count of 10. */
  function RequestBody(query: Option<string>): (body: Js)
    ensures body.Obj? && "count" in body.fields && body.fields["count"] == Num(10.0)
    ensures "text" in body.fields
    ensures query.Some? ==> body.fields["text"] == Str(query.value)
    ensures query.None? ==> body.fields["text"] == Undefined
  {
    Obj(map["text" := (if query.Some? then Str(query.value) else Undefined), "count" := Num(AI_COUNT)])
  }

  /** The object literal built from the answer's body. */
  function ResultObject(data: Js): (r: Js)
    requires !Nullish(data)
    ensures r.Obj? && r.fields.Keys == {"count", "recommendations"}
    ensures Get(r, "count") == Get(data, "count") && Get(r, "recommendations") == Get(data, "recommendations")
  {
    Obj(map["count" := Get(data, "count"), "recommendations" := Get(data, "recommendations")])
  }

  // ---------------------------------------------------------------------------------
  // isValidRes

  /** The callback of `every`: both `image_id` and `rank` are numbers. Reading them off null or
      undefined throws. */
  function HasNumericIds(rec: Js): (r: Result<bool, Thrown>)
    ensures r.Failure? <==> Nullish(rec)
    ensures r.Failure? ==> r.error.ErrorObject? && r.error.kind == TypeError
    ensures r == Success(true) <==> Recommendation(rec)
  {
    if Nullish(rec) then Failure(ReadError(rec, "image_id"))
    else Success(Get(rec, "image_id").Num? && Get(rec, "rank").Num?)
  }

  /** `every`: stops at the first element the callback rejects or throws on. */
  function Every(elems: seq<Js>): (r: Result<bool, Thrown>)
    ensures r.Failure? ==> exists e :: e in elems && Nullish(e)
  {
    if elems == [] then Success(true)
    else
      match HasNumericIds(elems[0])
      case Failure(e) => Failure(e)
      case Success(ok) =>
        if ok then
          var rest := Every(elems[1..]);
          assert rest.Failure? ==> exists e :: e in elems[1..] && Nullish(e);
          assert forall e :: e in elems[1..] ==> e in elems;
          rest
        else Success(false)
  }

  /** `isValidRes(x)`, for the value of the condition; a throw from `every` propagates. */
  function IsValidRes(x: Js): (r: Result<bool, Thrown>)
    ensures Nullish(x) ==> r == Success(false)
    ensures r.Failure? ==> Get(x, "recommendations").Arr? && exists e :: e in Get(x, "recommendations").elems && Nullish(e)
    ensures r == Success(true) ==> Get(x, "recommendations").Arr?
  {
    if Nullish(x) || x == Bool(false) || x == Num(0.0) || x == Str("") then Success(false)
    else if !Get(x, "recommendations").Arr? then Success(false)
    else
      match Every(Get(x, "recommendations").elems)
      case Failure(e) => Failure(e)
      case Success(ok) => Success(ok && (Get(x, "count").Undefined? || Get(x, "count").Num?))
  }

  /** The shape of AiSimilarSearchResponse, as a reference: an object whose `recommendations`
      is an array of objects with numeric `image_id` and `rank`, and whose `count` is absent,
      undefined or a number. */
  predicate Recommendation(e: Js) {
    e.Obj? && "image_id" in e.fields && e.fields["image_id"].Num? && "rank" in e.fields && e.fields["rank"].Num?
  }

  predicate ValidShape(x: Js) {
    && x.Obj? && "recommendations" in x.fields && x.fields["recommendations"].Arr?
    && (forall e :: e in x.fields["recommendations"].elems ==> Recommendation(e))
    && ("count" !in x.fields || x.fields["count"].Undefined? || x.fields["count"].Num?)
  }

  lemma {:induction false} EveryAccepts(elems: seq<Js>)
    ensures Every(elems) == Success(true) <==> forall e :: e in elems ==> Recommendation(e)
  {
    if elems != [] {
      EveryAccepts(elems[1..]);
      assert HasNumericIds(elems[0]) == Success(true) <==> Recommendation(elems[0]);
      assert forall e :: e in elems <==> e == elems[0] || e in elems[1..];
    }
  }

  /** `isValidRes` accepts exactly the values of the response shape. */
  lemma IsValidResShape(x: Js)
    ensures IsValidRes(x) == Success(true) <==> ValidShape(x)
  {
    if !Nullish(x) && Get(x, "recommendations").Arr? {
      EveryAccepts(Get(x, "recommendations").elems);
    }
  }

  /** An empty recommendations list is valid, with or without a numeric count. */
  lemma EmptyRecommendationsValid(count: Js)
    requires count.Undefined? || count.Num?
    ensures IsValidRes(Obj(map["count" := count, "recommendations" := Arr([])])) == Success(true)
  {
  }

  // ---------------------------------------------------------------------------------
  // similarSearch

  /** The body of the `try`: post, copy, check. An invalid shape throws a BadRequestException. */
  function TryBody(query: Option<string>, post: Js -> Result<Js, Thrown>): (r: Result<Js, Thrown>)
    ensures r.Success? ==> post(RequestBody(query)).Success? && !Nullish(post(RequestBody(query)).value)
    ensures r.Success? ==> r.value.Obj? && r.value.fields.Keys == {"count", "recommendations"}
    ensures r.Success? ==> IsValidRes(r.value) == Success(true)
  {
    match post(RequestBody(query))
    case Failure(e) => Failure(e)
    case Success(data) =>
      if Nullish(data) then Failure(ReadError(data, "count"))
      else
        var result := ResultObject(data);
        match IsValidRes(result)
        case Failure(e) => Failure(e)
        case Success(ok) => if ok then Success(result) else Failure(ErrorObject(BadRequest, INVALID_RESPONSE))
  }

  /** The message of the caught value: an Error's own message, otherwise a fixed text. */
  function Detail(e: Thrown): (r: string)
    ensures e.ErrorObject? ==> r == e.message
    ensures !e.ErrorObject? ==> r == UNKNOWN_ERROR
  {
    if e.ErrorObject? then e.message else UNKNOWN_ERROR
  }

  /** `similarSearch`: whatever the `try` throws is replaced by an InternalServerErrorException. */
  function SimilarSearch(query: Option<string>, post: Js -> Result<Js, Thrown>): (r: Result<Js, Thrown>)
    ensures r.Success? <==> TryBody(query, post).Success?
    ensures r.Success? ==> r.value == TryBody(query, post).value
    ensures r.Failure? ==> r.error.ErrorObject? && r.error.kind == InternalServerError
  {
    match TryBody(query, post)
    case Success(result) => Success(result)
    case Failure(e) => Failure(ErrorObject(InternalServerError, FAILURE_PREFIX + Detail(e)))
  }

  /** The service succeeds exactly when the AI server answers with a body whose copied `count`
      and `recommendations` have the response shape; it then returns that copy. */
  lemma SuccessCopies(query: Option<string>, post: Js -> Result<Js, Thrown>)
    ensures var answer := post(RequestBody(query));
      && (SimilarSearch(query, post).Success? <==>
            answer.Success? && !Nullish(answer.value) && ValidShape(ResultObject(answer.value)))
      && (SimilarSearch(query, post).Success? ==>
            var data := answer.value;
            SimilarSearch(query, post).value == Obj(map["count" := Get(data, "count"), "recommendations" := Get(data, "recommendations")]))
  {
    var answer := post(RequestBody(query));
    if answer.Success? && !Nullish(answer.value) {
      IsValidResShape(ResultObject(answer.value));
    }
  }

  /** Every failure, the rejected shape included, leaves as an InternalServerErrorException
      whose message starts with the fixed prefix. */
  lemma FailuresAreInternal(query: Option<string>, post: Js -> Result<Js, Thrown>)
    ensures var r := SimilarSearch(query, post);
      r.Failure? ==>
        (&& r.error.ErrorObject? && r.error.kind == InternalServerError
         && |FAILURE_PREFIX| <= |r.error.message| && r.error.message[..|FAILURE_PREFIX|] == FAILURE_PREFIX)
  {
  }

  /** A well-formed answer of the wrong shape fails with the BadRequest message inside; a
      failed call that throws no Error fails with the fixed unknown-error text. */
  lemma FailureMessages(query: Option<string>, post: Js -> Result<Js, Thrown>)
    ensures var answer := post(RequestBody(query));
      answer.Success? && !Nullish(answer.value) && IsValidRes(ResultObject(answer.value)) == Success(false) ==>
        SimilarSearch(query, post) == Failure(ErrorObject(InternalServerError, FAILURE_PREFIX + INVALID_RESPONSE))
    ensures post(RequestBody(query)) == Failure(NonError) ==>
      SimilarSearch(query, post) == Failure(ErrorObject(InternalServerError, FAILURE_PREFIX + UNKNOWN_ERROR))
  {
  }
}
