/**
 * The conversions of the lab4 posts client: `_to_post`, which normalises one
 * decoded JSON record, and `fetch_all_posts` once the HTTP response is in
 * hand, given as its status code and its decoded list of records.
 */
module PostApi {
  import opened Wrappers
  import opened PyValue
  import PostModel

  /** The four keys of a normalised post. */
  const PostKeys: set<string> := {"id", "user_id", "title", "body"}

  /** A normalised post: exactly the four keys, integer ids and text fields. */
  predicate IsPostDict(d: Dict)
  {
    && d.Keys == PostKeys
    && d["id"].IntVal? && d["user_id"].IntVal? && d["title"].StrVal? && d["body"].StrVal?
  }

  /** `_to_post(d)`: the four entries looked up and converted in the order
      the dictionary literal lists them, each converted before the next is
      looked up; every other key is dropped. */
  function ToPost(d: Dict): (r: Result<Dict, PyError>)
    ensures r.Success? ==> IsPostDict(r.value)
  {
    var idValue :- Lookup(d, "id");
    var id :- PyInt(idValue);
    var userValue :- Lookup(d, "user_id");
    var userId :- PyInt(userValue);
    var titleValue :- Lookup(d, "title");
    var title :- PyStr(titleValue);
    var bodyValue :- Lookup(d, "body");
    var body :- PyStr(bodyValue);
    Success(map["id" := IntVal(id), "user_id" := IntVal(userId),
                "title" := StrVal(title), "body" := StrVal(body)])
  }

  /** `_to_post` succeeds exactly when the four keys are present, both ids
      convert with `int()` and both texts with `str()`, and then keeps those
      conversions. Otherwise the first failing step, in the literal's order,
      decides the exception: `KeyError` naming the missing key, or
      `ValueError` for a value that does not convert. */
  lemma ToPostOutcome(d: Dict)
    ensures ToPost(d).Success? <==>
      PostModel.IdsConvert(d) && PostModel.TextConverts(d, "title") && PostModel.TextConverts(d, "body")
    ensures ToPost(d).Success? ==>
      var r := ToPost(d).value;
      && r["id"] == IntVal(PyInt(d["id"]).value) && r["user_id"] == IntVal(PyInt(d["user_id"]).value)
      && r["title"] == StrVal(PyStr(d["title"]).value) && r["body"] == StrVal(PyStr(d["body"]).value)
    ensures "id" !in d ==> ToPost(d) == Failure(KeyError("id"))
    ensures "id" in d && PyInt(d["id"]).Failure? ==> ToPost(d) == Failure(ValueError)
    ensures "id" in d && PyInt(d["id"]).Success? && "user_id" !in d ==>
      ToPost(d) == Failure(KeyError("user_id"))
    ensures "id" in d && PyInt(d["id"]).Success? && "user_id" in d && PyInt(d["user_id"]).Failure? ==>
      ToPost(d) == Failure(ValueError)
    ensures PostModel.IdsConvert(d) && "title" !in d ==> ToPost(d) == Failure(KeyError("title"))
    ensures PostModel.IdsConvert(d) && "title" in d && PyStr(d["title"]).Failure? ==>
      ToPost(d) == Failure(ValueError)
    ensures PostModel.IdsConvert(d) && PostModel.TextConverts(d, "title") && "body" !in d ==>
      ToPost(d) == Failure(KeyError("body"))
    ensures PostModel.IdsConvert(d) && PostModel.TextConverts(d, "title") && "body" in d && PyStr(d["body"]).Failure? ==>
      ToPost(d) == Failure(ValueError)
  {
  }

  /** A normalised post is left as it is. */
  lemma ToPostOfPostDict(d: Dict)
    requires IsPostDict(d)
    ensures ToPost(d) == Success(d)
  {
    var r := ToPost(d).value;
    assert r["id"] == d["id"] && r["user_id"] == d["user_id"];
    assert r["title"] == d["title"] && r["body"] == d["body"];
    assert r.Keys == d.Keys;
    assert forall k | k in d :: r[k] == d[k];
    assert r == d;
  }

  /** `_to_post` is idempotent: normalising its own result changes nothing. */
  lemma ToPostIdempotent(d: Dict)
    requires ToPost(d).Success?
    ensures ToPost(ToPost(d).value) == ToPost(d)
  {
    ToPostOfPostDict(ToPost(d).value);
  }

  /** A record keyed the way the public JSONPlaceholder service keys it,
      with `userId` and no `user_id`, is refused with `KeyError('user_id')`. */
  lemma CamelCaseUserIdRefused(d: Dict)
    requires "id" in d && PyInt(d["id"]).Success?
    requires "userId" in d && "user_id" !in d
    ensures ToPost(d) == Failure(KeyError("user_id"))
  {
  }

  /** `to_model` after `_to_post` is `to_model` alone: both fail on the same
      records with the same exception, and succeed with the same post. */
  lemma ToModelAfterToPost(d: Dict)
    ensures ToPost(d).Failure? ==> PostModel.ToModel(d) == Failure(ToPost(d).error)
    ensures ToPost(d).Success? ==> PostModel.ToModel(ToPost(d).value) == PostModel.ToModel(d)
    ensures ToPost(d).Success? <==> PostModel.ToModel(d).Success?
  {
    if ToPost(d).Success? {
      var r := ToPost(d).value;
      PostModel.ToModelOutcome(r);
      PostModel.ToModelOutcome(d);
      PyStrOfText(d["title"]);
      PyStrOfText(d["body"]);
      ToPostOutcome(d);
    }
  }

  /** `str()` of the text `str()` wrote gives the same text back. */
  lemma PyStrOfText(v: Value)
    requires PyStr(v).Success?
    ensures PyStr(StrVal(PyStr(v).value)) == PyStr(v)
  {
  }

  /** The list comprehension of `fetch_all_posts`: `_to_post` applied to the
      records in order, the first exception ending the whole list. */
  function MapToPost(records: seq<Dict>): (r: Result<seq<Dict>, PyError>)
    ensures r.Success? <==> forall i :: 0 <= i < |records| ==> ToPost(records[i]).Success?
    ensures r.Success? ==> |r.value| == |records|
    ensures r.Success? ==> forall i :: 0 <= i < |records| ==> ToPost(records[i]) == Success(r.value[i])
    ensures r.Failure? ==> exists i :: 0 <= i < |records| && FirstFailure(records, i) && ToPost(records[i]) == Failure(r.error)
  {
    if records == [] then Success([])
    else
      var post :- ToPost(records[0]);
      var rest :- MapToPost(records[1..]);
      Success([post] + rest)
  }

  /** Record `i` is the first one `_to_post` refuses. */
  predicate FirstFailure(records: seq<Dict>, i: int)
  {
    && 0 <= i < |records|
    && ToPost(records[i]).Failure?
    && forall j :: 0 <= j < i ==> ToPost(records[j]).Success?
  }

  /** `fetch_all_posts` once the response is in: a status other than 200
      raises `ConnectionError`; otherwise every record is normalised. */
  function FetchAllPosts(status: int, records: seq<Dict>): (r: Result<seq<Dict>, PyError>)
    ensures status != 200 ==> r == Failure(ConnectionError)
    ensures r.Success? ==> status == 200 && |r.value| == |records|
    ensures r.Success? ==> forall i :: 0 <= i < |records| ==> ToPost(records[i]) == Success(r.value[i])
    ensures status == 200 && r.Failure? ==> exists i :: FirstFailure(records, i) && ToPost(records[i]) == Failure(r.error)
  {
    if status != 200 then Failure(ConnectionError) else MapToPost(records)
  }

  /** Every fetched post is a normalised post, and `to_model` turns it into
      the post `to_model` makes of the original record. */
  lemma FetchedPostsModel(status: int, records: seq<Dict>, i: int)
    requires FetchAllPosts(status, records).Success?
    requires 0 <= i < |records|
    ensures IsPostDict(FetchAllPosts(status, records).value[i])
    ensures PostModel.ToModel(FetchAllPosts(status, records).value[i]) == PostModel.ToModel(records[i])
    ensures PostModel.ToModel(records[i]).Success?
  {
    ToModelAfterToPost(records[i]);
  }
}
