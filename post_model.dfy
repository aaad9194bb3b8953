/**
 * The lab4 `Post` record: an immutable four-field tuple, its `repr` (which
 * is also its `str`), and `to_model`, which builds one from a dictionary.
 */
module PostModel {
  import opened Wrappers
  import opened PyNum
  import opened PyRepr
  import opened PyText
  import opened PyValue

  /** The fields in the order the tuple declares them. */
  datatype Post = Post(id: int, userId: int, title: string, body: string)

  /** `to_model(value)`: each keyword argument looks its entry up and
      converts it before the next one is evaluated, so the first missing key
      or failing conversion decides the exception. */
  function ToModel(value: Dict): (r: Result<Post, PyError>)
    ensures r.Success? ==> "id" in value && "user_id" in value && "title" in value && "body" in value
    ensures r.Failure? ==> r.error == ValueError || r.error in KeyErrors(PostFieldKeys)
  {
    var idValue :- Lookup(value, "id");
    var id :- PyInt(idValue);
    var userValue :- Lookup(value, "user_id");
    var userId :- PyInt(userValue);
    var titleValue :- Lookup(value, "title");
    var title :- PyStr(titleValue);
    var bodyValue :- Lookup(value, "body");
    var body :- PyStr(bodyValue);
    Success(Post(id, userId, title, body))
  }

  /** The dictionary keys `to_model` reads, in the order it reads them. */
  const PostFieldKeys: seq<string> := ["id", "user_id", "title", "body"]

  function KeyErrors(keys: seq<string>): set<PyError>
  {
    set k | k in keys :: KeyError(k)
  }

  /** Both ids are present and convert with `int()`. */
  predicate IdsConvert(value: Dict)
  {
    "id" in value && PyInt(value["id"]).Success? && "user_id" in value && PyInt(value["user_id"]).Success?
  }

  /** The entry under `key` is present and converts with `str()`. */
  predicate TextConverts(value: Dict, key: string)
  {
    key in value && PyStr(value[key]).Success?
  }

  /** `to_model` succeeds exactly when all four keys are present, both ids
      convert with `int()` and both texts with `str()`; the post then holds
      those conversions. Otherwise the exception is that of the first
      failing step: `KeyError` naming the first missing key, `ValueError`
      for the first value that does not convert. */
  lemma ToModelOutcome(value: Dict)
    ensures ToModel(value).Success? <==>
      && IdsConvert(value)
      && TextConverts(value, "title") && TextConverts(value, "body")
    ensures ToModel(value).Success? ==> (ToModel(value).value ==
      Post(PyInt(value["id"]).value, PyInt(value["user_id"]).value,
           PyStr(value["title"]).value, PyStr(value["body"]).value))
    ensures "id" !in value ==> ToModel(value) == Failure(KeyError("id"))
    ensures "id" in value && PyInt(value["id"]).Failure? ==> ToModel(value) == Failure(ValueError)
    ensures "id" in value && PyInt(value["id"]).Success? && "user_id" !in value ==>
      ToModel(value) == Failure(KeyError("user_id"))
    ensures "id" in value && PyInt(value["id"]).Success? && "user_id" in value && PyInt(value["user_id"]).Failure? ==>
      ToModel(value) == Failure(ValueError)
    ensures IdsConvert(value) && "title" !in value ==> ToModel(value) == Failure(KeyError("title"))
    ensures IdsConvert(value) && "title" in value && PyStr(value["title"]).Failure? ==>
      ToModel(value) == Failure(ValueError)
    ensures IdsConvert(value) && TextConverts(value, "title") && "body" !in value ==>
      ToModel(value) == Failure(KeyError("body"))
    ensures IdsConvert(value) && TextConverts(value, "title") && "body" in value && PyStr(value["body"]).Failure? ==>
      ToModel(value) == Failure(ValueError)
  {
  }

  /** The dictionary holding a post's own fields, ids as integers. */
  function AsDict(p: Post): Dict
  {
    map["id" := IntVal(p.id), "user_id" := IntVal(p.userId), "title" := StrVal(p.title), "body" := StrVal(p.body)]
  }

  /** The same dictionary with the ids written as text. */
  function AsTextDict(p: Post): Dict
  {
    map["id" := StrVal(IntToString(p.id)), "user_id" := StrVal(IntToString(p.userId)),
        "title" := StrVal(p.title), "body" := StrVal(p.body)]
  }

  /** `to_model` rebuilds a post from its fields when the ids are integers,
      and when they are decimal text `int()` can read; text of a longer id
      raises `ValueError`. */
  lemma ToModelOfFields(p: Post)
    ensures ToModel(AsDict(p)) == Success(p)
    ensures FitsStrDigits(p.id) && FitsStrDigits(p.userId) ==> ToModel(AsTextDict(p)) == Success(p)
    ensures !FitsStrDigits(p.id) ==> ToModel(AsTextDict(p)) == Failure(ValueError)
  {
    var d, t := AsDict(p), AsTextDict(p);
    assert d["id"] == IntVal(p.id) && d["user_id"] == IntVal(p.userId);
    assert d["title"] == StrVal(p.title) && d["body"] == StrVal(p.body);
    assert t["id"] == StrVal(IntToString(p.id)) && t["user_id"] == StrVal(IntToString(p.userId));
    assert t["title"] == StrVal(p.title) && t["body"] == StrVal(p.body);
    IntToStringRoundTrip(p.id);
    IntToStringRoundTrip(p.userId);
  }

  /** The text of `repr(post)`: each field as an f-string `=` specifier
      writes it, `self.<name>=` followed by `repr` of the value. */
  function ReprText(p: Post): string
  {
    "<Post:self.id=" + (IntToString(p.id) + (",self.user_id=" + (IntToString(p.userId)
      + (",self.title=" + (StrRepr(p.title) + (",self.body=" + (StrRepr(p.body) + ">")))))))
  }

  /** `repr(post)`: fails with `ValueError` when an id has more digits than
      `str()` writes; otherwise a text from which the post is read back. */
  function Repr(p: Post): (r: Result<string, PyError>)
    ensures r.Success? <==> FitsStrDigits(p.id) && FitsStrDigits(p.userId)
    ensures r.Failure? ==> r.error == ValueError
    ensures r.Success? ==> ParseRepr(r.value) == Some(p)
  {
    if FitsStrDigits(p.id) && FitsStrDigits(p.userId) then
      ReprRoundTrip(p);
      Success(ReprText(p))
    else Failure(ValueError)
  }

  /** `str(post)`: the same outcome as `repr(post)`, from whose text the
      post can be read back. */
  function Str(p: Post): (r: Result<string, PyError>)
    ensures r == Repr(p)
    ensures r.Success? ==> ParseRepr(r.value) == Some(p)
  {
    Repr(p)
  }

  /** What follows `prefix` in `s`, if `s` starts with it. */
  function After(prefix: string, s: string): (r: Option<string>)
    ensures r.Some? <==> prefix <= s
    ensures r.Some? ==> s == prefix + r.value
  {
    if prefix <= s then Some(s[|prefix|..]) else None
  }

  lemma AfterPrefix(prefix: string, rest: string)
    ensures After(prefix, prefix + rest) == Some(rest)
  {
    assert prefix <= prefix + rest;
    assert (prefix + rest)[|prefix|..] == rest;
  }

  /** An integer at the start of `s`, up to the next comma. */
  function ReadInt(s: string): Option<(int, string)>
  {
    var i := IndexOf(s, ',');
    var n :- ParseInt(s[..i]);
    Some((n, s[i..]))
  }

  /** Reads a post back from the text `repr` gives it. */
  function ParseRepr(s: string): Option<Post>
  {
    var a :- After("<Post:self.id=", s);
    var id :- ReadInt(a);
    var b :- After(",self.user_id=", id.1);
    ParseFromUserId(id.0, b)
  }

  /** The rest of a `repr` from the user id on, the id already read. */
  function ParseFromUserId(id: int, b: string): Option<Post>
  {
    var userId :- ReadInt(b);
    var c :- After(",self.title=", userId.1);
    var title :- ReadQuoted(c);
    ParseFromBody(id, userId.0, title.0, title.1)
  }

  /** The rest of a `repr` from the body on, the other fields already read. */
  function ParseFromBody(id: int, userId: int, title: string, d: string): Option<Post>
  {
    var e :- After(",self.body=", d);
    var body :- ReadQuoted(e);
    if body.1 == ">" then Some(Post(id, userId, title, body.0)) else None
  }

  /** The integer `str(n)` at the head of a text whose rest starts with a comma. */
  lemma ReadIntOfString(n: int, rest: string)
    requires FitsStrDigits(n)
    requires rest != [] && rest[0] == ','
    ensures ReadInt(IntToString(n) + rest) == Some((n, rest))
  {
    var t := IntToString(n);
    var s := t + rest;
    IntToStringChars(n);
    assert ',' !in t;
    assert s[..|t|] == t;
    assert IndexOf(s, ',') == |t|;
    IntToStringRoundTrip(n);
    assert s[|t|..] == rest;
  }

  /** `repr` loses nothing: the post is read back from its text. */
  lemma ReprRoundTrip(p: Post)
    requires FitsStrDigits(p.id) && FitsStrDigits(p.userId)
    ensures ParseRepr(ReprText(p)) == Some(p)
  {
    var tail2 := ",self.title=" + (StrRepr(p.title) + (",self.body=" + (StrRepr(p.body) + ">")));
    var tail0 := ",self.user_id=" + (IntToString(p.userId) + tail2);
    AfterPrefix("<Post:self.id=", IntToString(p.id) + tail0);
    ReadIntOfString(p.id, tail0);
    AfterPrefix(",self.user_id=", IntToString(p.userId) + tail2);
    ReadFromUserId(p, tail2);
  }

  /** The part of a `repr` from the user id on reads back as the post. */
  lemma ReadFromUserId(p: Post, tail2: string)
    requires FitsStrDigits(p.userId)
    requires tail2 == ",self.title=" + (StrRepr(p.title) + (",self.body=" + (StrRepr(p.body) + ">")))
    ensures ParseFromUserId(p.id, IntToString(p.userId) + tail2) == Some(p)
  {
    var tail4 := ",self.body=" + (StrRepr(p.body) + ">");
    ReadIntOfString(p.userId, tail2);
    AfterPrefix(",self.title=", StrRepr(p.title) + tail4);
    StrReprRoundTrip(p.title, tail4);
    AfterPrefix(",self.body=", StrRepr(p.body) + ">");
    StrReprRoundTrip(p.body, ">");
  }

  /** Two posts with the same `repr` text are the same post. */
  lemma ReprInjective(p: Post, q: Post)
    requires Repr(p).Success? && Repr(p) == Repr(q)
    ensures p == q
  {
  }
}
