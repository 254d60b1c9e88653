/** The request each task of `rest_locust/base.py` issues, computed from its
    action descriptor. The HTTP client is replaced by the request it is asked
    to send; the Jinja2 rendering of the URL is replaced by the pair
    (template, resolved parameters) it would be rendered from. */
module Tasks {
  import opened Values
  import opened Resolver

  datatype Verb = GET | POST | PUT | DELETE

  /** The URL handed to the client: `token_url` as it is, or a resource
      template (a string, as Jinja2 demands) with the parameters it is
      rendered against. */
  datatype Url = Raw(target: Value) | Compiled(template: string, params: Dict)

  /** `data=` of the client call: nothing, a dict sent as form data, or the
      JSON text `json.dumps(data)` (kept as the value it encodes). */
  datatype Body = NoBody | FormData(data: Value) | JsonDump(data: Value)

  datatype Request = Request(verb: Verb, url: Url, body: Body, headers: Dict)

  /** `json.dumps(v)` succeeds: no callable is left anywhere in `v`, lists
      and callables' results included (dict keys are always strings here). */
  predicate JsonEncodable(v: Value) {
    match v
    case Thunk(_) => false
    case Seq(items) => forall i :: 0 <= i < |items| ==> JsonEncodable(items[i])
    case Map(es) => forall i :: 0 <= i < |es| ==> JsonEncodable(es[i].1)
    case _ => true
  }

  /** `BaseTaskSet.headers`, sent with the token request. */
  const JsonContentType: Dict := [("Content-Type", Str("application/json"))]

  /** `BaseTaskSet.token_title` */
  const DefaultTokenTitle: string := "JWT"

  /** `str(token)`: the token text, or `None` before any token was stored. */
  function TokenText(token: Option<string>): string {
    match token
    case None => "None"
    case Some(t) => t
  }

  /** `get_headers()` */
  function GetHeaders(title: string, token: Option<string>): (h: Dict)
    ensures Distinct(h) && KeySet(h) == {"Content-Type", "Authorization"}
    ensures Lookup(h, "Content-Type") == Some(Str("application/json"))
    ensures Lookup(h, "Authorization") == Some(Str(title + " " + TokenText(token)))
  {
    var h := [("Content-Type", Str("application/json")), ("Authorization", Str(title + " " + TokenText(token)))];
    assert KeySet(h) == {h[0].0, h[1].0};
    h
  }

  /** The class-default `headers`, sent with the token request, hold only the
      content type, the same one `get_headers()` sends. */
  lemma DefaultTokenRequestHeaders(title: string, token: Option<string>)
    ensures Distinct(JsonContentType) && KeySet(JsonContentType) == {"Content-Type"}
    ensures Lookup(JsonContentType, "Content-Type") == Lookup(GetHeaders(title, token), "Content-Type")
  {
    assert KeySet(JsonContentType) == {JsonContentType[0].0};
  }

  /** Before login the Authorization header reads `JWT None`. */
  lemma HeadersBeforeLogin()
    ensures Lookup(GetHeaders(DefaultTokenTitle, None), "Authorization") == Some(Str("JWT None"))
  {
    assert DefaultTokenTitle + " " + TokenText(None) == "JWT None";
  }

  /** `compile_resource(resource, params)` up to the render call: the
      template is compiled first, which fails on anything but a string; then
      the parameters are deep-copied, resolved in place, and updated with the
      resolved dict, which is the same object. */
  function CompileResource(template: Value, params: Value): Result<Url> {
    if !template.Str? then Err(NotATemplate)
    else if !params.Map? then Err(NotAMapping)
    else
      var resolved :- Resolve(params);
      Ok(Compiled(template.s, Update(resolved.entries, resolved.entries)))
  }

  /** Compiling succeeds exactly when the template is a string and the
      parameters are a dict that resolves; a non-string template fails first,
      and it renders the template against the resolved parameters: the final
      `update` with itself changes nothing. */
  lemma CompileResourceSpec(template: Value, params: Value)
    requires params.Map? ==> Distinct(params.entries)
    ensures !template.Str? ==> CompileResource(template, params) == Err(NotATemplate)
    ensures CompileResource(template, params).Ok? <==>
      template.Str? && params.Map? && Resolve(params).Ok?
    ensures CompileResource(template, params).Ok? ==>
      CompileResource(template, params).value == Compiled(template.s, Resolve(params).value.entries)
  {
    if params.Map? && Resolve(params).Ok? {
      ResolvedDistinct(params.entries);
      UpdateSelf(Resolve(params).value.entries);
    }
  }

  // ---------------------------------------------------------------------
  // _list and _retrieve

  function UrlOf(d: Dict): Value { GetOr(d, "url", Null) }
  function ParamsOf(d: Dict): Value { GetOr(d, "params", Map([])) }

  /** The validation of one descriptor: `.get` needs a dict, and the url must
      be present and truthy. */
  function CheckDescriptor(desc: Value): (r: Result<Dict>)
    ensures r.Ok? <==> desc.Map? && Truthy(UrlOf(desc.entries))
    ensures r.Ok? ==> r.value == desc.entries
  {
    if !desc.Map? then Err(NotAMapping)
    else if !Truthy(UrlOf(desc.entries)) then Err(MissingConfiguration)
    else Ok(desc.entries)
  }

  /** The GET issued for a validated descriptor. */
  function GetRequest(d: Dict, headers: Dict): Result<Request> {
    var url :- CompileResource(UrlOf(d), ParamsOf(d));
    Ok(Request(GET, url, NoBody, headers))
  }

  /** `ListBaseTask._list` and `RetrieveBaseTask._retrieve`. */
  function GetPlan(desc: Option<Value>, headers: Dict): Result<Request> {
    if desc.None? then Err(MissingConfiguration)
    else
      var d :- CheckDescriptor(desc.value);
      GetRequest(d, headers)
  }

  /** A url that is a callable is not called: Jinja2 refuses it as a
      template, so nothing is sent. */
  lemma CallableUrlNotSent(headers: Dict)
    ensures GetPlan(Some(Map([("url", Thunk(Str("/x")))])), headers) == Err(NotATemplate)
  {
    var desc := [("url", Thunk(Str("/x")))];
    assert Lookup(desc, "url") == Some(Thunk(Str("/x")));
  }

  /** A list or retrieve task issues one GET, without body, against the
      descriptor's url and resolved params, exactly when the descriptor is a
      dict with a url whose params resolve. */
  lemma GetPlanSpec(desc: Option<Value>, headers: Dict)
    requires desc.Some? && desc.value.Map? ==> DistinctDeep(desc.value)
    ensures GetPlan(desc, headers).Ok? <==>
      desc.Some? && desc.value.Map? && Truthy(UrlOf(desc.value.entries)) &&
      UrlOf(desc.value.entries).Str? && ParamsOf(desc.value.entries).Map? && Resolve(ParamsOf(desc.value.entries)).Ok?
    ensures GetPlan(desc, headers).Ok? ==>
      GetPlan(desc, headers).value ==
        Request(GET, Compiled(UrlOf(desc.value.entries).s, Resolve(ParamsOf(desc.value.entries)).value.entries),
                NoBody, headers)
  {
    if desc.Some? && desc.value.Map? {
      ParamsDistinct(desc.value.entries);
      CompileResourceSpec(UrlOf(desc.value.entries), ParamsOf(desc.value.entries));
    }
  }

  lemma ParamsDistinct(d: Dict)
    requires DistinctDeep(Map(d))
    ensures ParamsOf(d).Map? ==> Distinct(ParamsOf(d).entries)
  {
    if Lookup(d, "params").Some? {
      LookupValueDistinct(d, "params");
    }
  }

  /** A value stored in a dict whose dicts all have unique keys has that
      property too. */
  lemma {:induction false} LookupValueDistinct(d: Dict, k: string)
    requires DistinctDeep(Map(d)) && Lookup(d, k).Some?
    ensures DistinctDeep(Lookup(d, k).value)
  {
    if d[0].0 != k {
      assert DistinctDeep(Map(d[1..])) by {
        forall i, j | 0 <= i < j < |d[1..]| ensures d[1..][i].0 != d[1..][j].0 {
          assert d[1..][i] == d[i + 1] && d[1..][j] == d[j + 1];
        }
        forall i | 0 <= i < |d[1..]| ensures DistinctDeep(d[1..][i].1) {
          assert d[1..][i] == d[i + 1];
        }
      }
      LookupValueDistinct(d[1..], k);
    }
  }

  // ---------------------------------------------------------------------
  // _create

  /** `get_headers()` updated with `create['headers']` when that is truthy. */
  function CreateHeaders(d: Dict, headers: Dict): Result<Dict> {
    var custom := GetOr(d, "headers", Null);
    if !Truthy(custom) then Ok(headers)
    else if custom.Map? then Ok(Update(headers, custom.entries))
    else Err(InvalidMergeTarget)
  }

  /** `CreateBaseTask._create` */
  function CreatePlan(desc: Option<Value>, headers: Dict): Result<Request> {
    if desc.None? then Err(MissingConfiguration)
    else
      var d :- CheckDescriptor(desc.value);
      var h :- CreateHeaders(d, headers);
      var data := GetOr(d, "data", Null);
      if !Truthy(data) then Err(MissingConfiguration)
      else if !data.Map? then Err(NotAMapping)
      else
        var resolved :- Resolve(data);
        var body := Update(resolved.entries, resolved.entries);
        var url :- CompileResource(UrlOf(d), ParamsOf(d));
        var asForm := Truthy(GetOr(d, "form-data", Bool(true)));
        if !asForm && !JsonEncodable(Map(body)) then Err(NotSerializable)
        else Ok(Request(POST, url, if asForm then FormData(Map(body)) else JsonDump(Map(body)), h))
  }

  /** A create task fails before sending when the url or the data is missing,
      empty or otherwise false. */
  lemma CreateNeedsUrlAndData(es: Dict, headers: Dict)
    requires !Truthy(UrlOf(es)) || !Truthy(GetOr(es, "data", Null))
    ensures CreatePlan(Some(Map(es)), headers).Err?
    ensures !Truthy(UrlOf(es)) ==> CreatePlan(Some(Map(es)), headers) == Err(MissingConfiguration)
  {
  }

  /** A create task sends exactly when the descriptor is a dict with a truthy
      url, its headers (if any) are a dict, its data is a non-empty dict whose
      values resolve, its params resolve, and, when the data goes out as
      JSON, no callable is left in the resolved data. */
  lemma CreateSucceeds(es: Dict, headers: Dict)
    requires DistinctDeep(Map(es))
    ensures var data := GetOr(es, "data", Null);
      CreatePlan(Some(Map(es)), headers).Ok? <==>
        && Truthy(UrlOf(es)) && CreateHeaders(es, headers).Ok?
        && UrlOf(es).Str?
        && data.Map? && data.entries != [] && Resolve(data).Ok?
        && ParamsOf(es).Map? && Resolve(ParamsOf(es)).Ok?
        && (Truthy(GetOr(es, "form-data", Bool(true))) || JsonEncodable(Resolve(data).value))
  {
    var data := GetOr(es, "data", Null);
    if data.Map? && Resolve(data).Ok? {
      LookupValueDistinct(es, "data");
      ResolvedDistinct(data.entries);
      UpdateSelf(Resolve(data).value.entries);
    }
    ParamsDistinct(es);
    CompileResourceSpec(UrlOf(es), ParamsOf(es));
  }

  /** When a create task sends, it sends one POST to the descriptor's url
      and resolved params, with `get_headers()` overridden key by key by the
      descriptor's headers, and the resolved data as form data unless
      `'form-data'` is present and false, in which case as JSON. */
  lemma CreateRequestSpec(es: Dict, title: string, token: Option<string>, k: string)
    requires DistinctDeep(Map(es))
    requires CreatePlan(Some(Map(es)), GetHeaders(title, token)).Ok?
    ensures var req := CreatePlan(Some(Map(es)), GetHeaders(title, token)).value;
      var data := GetOr(es, "data", Null);
      var custom := GetOr(es, "headers", Null);
      && Truthy(UrlOf(es)) && data.Map? && data.entries != []
      && req.verb == POST
      && UrlOf(es).Str? && req.url == Compiled(UrlOf(es).s, Resolve(ParamsOf(es)).value.entries)
      && (req.body.FormData? <==> Truthy(GetOr(es, "form-data", Bool(true))))
      && req.body.data == Resolve(data).value
      && Lookup(req.headers, k) ==
         (if Truthy(custom) && k in KeySet(custom.entries) then LookupLast(custom.entries, k)
          else Lookup(GetHeaders(title, token), k))
  {
    var data := GetOr(es, "data", Null);
    var custom := GetOr(es, "headers", Null);
    LookupValueDistinct(es, "data");
    ResolvedDistinct(data.entries);
    UpdateSelf(Resolve(data).value.entries);
    ParamsDistinct(es);
    CompileResourceSpec(UrlOf(es), ParamsOf(es));
    if Truthy(custom) {
      UpdateLookup(GetHeaders(title, token), custom.entries, k);
    }
  }

  // ---------------------------------------------------------------------
  // _update

  /** The loop of `_update`: every top-level value is resolved on its own,
      so every key, `__compile__` included, stays where it is. */
  function ResolveEach(d: Dict): Result<Dict> {
    if d == [] then Ok([])
    else
      var x :- Resolve(d[0].1);
      var rest :- ResolveEach(d[1..]);
      Ok([(d[0].0, x)] + rest)
  }

  /** What `ResolveEach` produces: the same keys in the same order, each with
      its own resolved value. */
  lemma {:induction false} ResolveEachSpec(d: Dict)
    ensures ResolveEach(d).Ok? <==> forall i :: 0 <= i < |d| ==> Resolve(d[i].1).Ok?
    ensures ResolveEach(d).Ok? ==>
      |ResolveEach(d).value| == |d| &&
      forall i :: 0 <= i < |d| ==>
        ResolveEach(d).value[i] == (d[i].0, Resolve(d[i].1).value)
  {
    if d != [] {
      ResolveEachSpec(d[1..]);
      if ResolveEach(d).Ok? {
        var r := ResolveEach(d).value;
        forall i | 0 <= i < |d| ensures r[i] == (d[i].0, Resolve(d[i].1).value) {
          if i > 0 {
            assert r[i] == ResolveEach(d[1..]).value[i - 1];
            assert d[1..][i - 1] == d[i];
          }
        }
      } else if Resolve(d[0].1).Ok? {
        var i :| 0 <= i < |d[1..]| && !Resolve(d[1..][i].1).Ok?;
        assert d[1..][i] == d[i + 1];
      }
    }
  }

  /** `for key, val in _data.items(): _data.update({key: unpack_values(val)})`,
      rewriting the copy in place. */
  method ResolveTopLevel(data: Dict) returns (r: Result<Dict>)
    requires Distinct(data)
    ensures r == ResolveEach(data)
  {
    var d := data;
    ghost var done: Dict := [];
    var i := 0;
    assert data[0..] == data;
    assert Prefixed(ResolveEach(data), done, ResolveEach(data[0..])) by {
      if ResolveEach(data).Ok? {
        assert done + ResolveEach(data).value == ResolveEach(data).value;
      }
    }
    while i < |data|
      invariant 0 <= i <= |data|
      invariant |done| == i && d == done + data[i..]
      invariant forall j :: 0 <= j < i ==> done[j].0 == data[j].0
      invariant Prefixed(ResolveEach(data), done, ResolveEach(data[i..]))
    {
      var x := UnpackValues(data[i].1);
      if x.Err? {
        TopLevelFails(data, done, i);
        return Err(x.error);
      }
      TopLevelStep(data, done, i, x.value);
      d := Set(d, data[i].0, x.value);
      done := done + [(data[i].0, x.value)];
      i := i + 1;
    }
    assert data[i..] == [];
    assert done + [] == done;
    return Ok(d);
  }

  /** One failing step of the loop: the whole result is that failure. */
  lemma TopLevelFails(data: Dict, done: Dict, i: nat)
    requires i < |data| && Resolve(data[i].1).Err?
    requires Prefixed(ResolveEach(data), done, ResolveEach(data[i..]))
    ensures ResolveEach(data) == Err(Resolve(data[i].1).error)
  {
    ResolveEachAt(data, i);
  }

  /** One successful step of the loop: the entry is rewritten in place and
      joins the resolved prefix. */
  lemma TopLevelStep(data: Dict, done: Dict, i: nat, x: Value)
    requires Distinct(data) && i < |data| && |done| == i
    requires forall j :: 0 <= j < i ==> done[j].0 == data[j].0
    requires Prefixed(ResolveEach(data), done, ResolveEach(data[i..]))
    requires Resolve(data[i].1) == Ok(x)
    ensures Set(done + data[i..], data[i].0, x) == (done + [(data[i].0, x)]) + data[i + 1..]
    ensures forall j :: 0 <= j < i + 1 ==> (done + [(data[i].0, x)])[j].0 == data[j].0
    ensures Prefixed(ResolveEach(data), done + [(data[i].0, x)], ResolveEach(data[i + 1..]))
  {
    ResolveEachAt(data, i);
    PrefixedStep(ResolveEach(data), done, data[i].0, x, ResolveEach(data[i + 1..]));
    SetAt(done, data, i, x);
  }

  /** `all` is `done` followed by `rest`, or the error `rest` ends in. */
  ghost predicate Prefixed(all: Result<Dict>, done: Dict, rest: Result<Dict>) {
    if rest.Ok? then all == Ok(done + rest.value) else all == rest
  }

  lemma PrefixedStep(all: Result<Dict>, done: Dict, k: string, x: Value, tail: Result<Dict>)
    requires Prefixed(all, done, if tail.Ok? then Ok([(k, x)] + tail.value) else tail)
    ensures Prefixed(all, done + [(k, x)], tail)
  {
    if tail.Ok? {
      assert done + ([(k, x)] + tail.value) == (done + [(k, x)]) + tail.value;
    }
  }

  lemma ResolveEachAt(data: Dict, i: nat)
    requires i < |data|
    ensures ResolveEach(data[i..]) ==
      if Resolve(data[i].1).Err? then Err(Resolve(data[i].1).error)
      else if ResolveEach(data[i + 1..]).Err? then ResolveEach(data[i + 1..])
      else Ok([(data[i].0, Resolve(data[i].1).value)] + ResolveEach(data[i + 1..]).value)
  {
    assert data[i..][0] == data[i] && data[i..][1..] == data[i + 1..];
  }

  lemma SetAt(done: Dict, data: Dict, i: nat, x: Value)
    requires Distinct(data) && i < |data| && |done| == i
    requires forall j :: 0 <= j < i ==> done[j].0 == data[j].0
    ensures Set(done + data[i..], data[i].0, x) == (done + [(data[i].0, x)]) + data[i + 1..]
  {
    var key := data[i].0;
    forall j | 0 <= j < |done| ensures done[j].0 != key {
      assert data[j].0 != data[i].0;
    }
    SetInPlace(done, key, data[i].1, x, data[i + 1..]);
    assert data[i..] == [data[i]] + data[i + 1..];
    assert done + data[i..] == done + [(key, data[i].1)] + data[i + 1..];
  }

  /** Storing under a key that the prefix lacks replaces its entry in place. */
  lemma {:induction false} SetInPlace(pre: Dict, k: string, old_v: Value, v: Value, post: Dict)
    requires k !in KeySet(pre)
    ensures Set(pre + [(k, old_v)] + post, k, v) == pre + [(k, v)] + post
  {
    var s := pre + [(k, old_v)] + post;
    if pre == [] {
      assert s == [(k, old_v)] + post;
      assert s[1..] == post;
    } else {
      KeySetCons(pre);
      assert s[0] == pre[0] && s[0].0 != k;
      assert s[1..] == pre[1..] + [(k, old_v)] + post;
      SetInPlace(pre[1..], k, old_v, v, post);
      assert [pre[0]] + (pre[1..] + [(k, v)] + post) == pre + [(k, v)] + post;
    }
  }

  /** `UpdateBaseTask._update` */
  function UpdatePlan(desc: Option<Value>, headers: Dict): Result<Request> {
    if desc.None? then Err(MissingConfiguration)
    else
      var d :- CheckDescriptor(desc.value);
      var data := GetOr(d, "data", Null);
      if !Truthy(data) then Err(MissingConfiguration)
      else if !data.Map? then Err(NotAMapping)
      else
        var body :- ResolveEach(data.entries);
        var url :- CompileResource(UrlOf(d), ParamsOf(d));
        if !JsonEncodable(Map(body)) then Err(NotSerializable)
        else Ok(Request(PUT, url, JsonDump(Map(body)), headers))
  }

  /** An update task sends exactly when the descriptor is a dict with a truthy
      url, its data is a non-empty dict whose every value resolves to
      something without a callable in it, and its params resolve. */
  lemma UpdateSucceeds(es: Dict, headers: Dict)
    ensures var data := GetOr(es, "data", Null);
      UpdatePlan(Some(Map(es)), headers).Ok? <==>
        && Truthy(UrlOf(es)) && data.Map? && data.entries != []
        && (forall i :: 0 <= i < |data.entries| ==>
              Resolve(data.entries[i].1).Ok? && JsonEncodable(Resolve(data.entries[i].1).value))
        && UrlOf(es).Str? && ParamsOf(es).Map? && Resolve(ParamsOf(es)).Ok?
  {
    var data := GetOr(es, "data", Null);
    if data.Map? {
      ResolveEachSpec(data.entries);
    }
  }

  /** A callable inside a list survives resolution, so `json.dumps` fails and
      the update is not sent. */
  lemma UpdateWithCallableInListNotSent()
    ensures UpdatePlan(Some(Map([("url", Str("/x")), ("data", Map([("a", Seq([Thunk(Int(1))]))]))])), [])
      == Err(NotSerializable)
  {
    var xs := Seq([Thunk(Int(1))]);
    var es := [("a", xs)];
    var desc := [("url", Str("/x")), ("data", Map(es))];
    assert "url" != "data" && "url" != "params" && "data" != "params";
    assert Lookup(desc, "url") == Some(Str("/x"));
    assert Lookup(desc[1..], "data") == Some(Map(es));
    assert Lookup(desc, "data") == Some(Map(es));
    assert Lookup(desc[1..], "params") == None;
    assert Lookup(desc, "params") == None;
    assert ResolveEach(es) == Ok(es) by {
      assert Resolve(xs) == Ok(xs);
      assert ResolveEach(es[1..]) == Ok([]);
      assert [("a", xs)] + [] == es;
    }
    assert Walk([], []) == Ok([]);
    assert !JsonEncodable(xs) by {
      assert !JsonEncodable(xs.items[0]);
    }
    assert !JsonEncodable(Map(es)) by {
      assert es[0].1 == xs;
    }
  }

  /** An update task sends one PUT with `get_headers()` and a JSON body with
      the data's own keys in order, each holding its resolved value: a
      top-level `__compile__` key is kept, not spliced. */
  lemma UpdateRequestSpec(es: Dict, headers: Dict)
    requires DistinctDeep(Map(es))
    requires UpdatePlan(Some(Map(es)), headers).Ok?
    ensures var req := UpdatePlan(Some(Map(es)), headers).value;
      var data := GetOr(es, "data", Null);
      && Truthy(UrlOf(es)) && data.Map? && data.entries != []
      && req.verb == PUT && req.headers == headers && req.body.JsonDump? && req.body.data.Map?
      && ParamsOf(es).Map? && Resolve(ParamsOf(es)).Ok?
      && UrlOf(es).Str? && req.url == Compiled(UrlOf(es).s, Resolve(ParamsOf(es)).value.entries)
      && |req.body.data.entries| == |data.entries|
      && (forall i :: 0 <= i < |data.entries| ==>
            Resolve(data.entries[i].1).Ok? &&
            req.body.data.entries[i] == (data.entries[i].0, Resolve(data.entries[i].1).value))
      && (Compile in KeySet(data.entries) ==> Compile in KeySet(req.body.data.entries))
  {
    var data := GetOr(es, "data", Null);
    ResolveEachSpec(data.entries);
    ParamsDistinct(es);
    CompileResourceSpec(UrlOf(es), ParamsOf(es));
    var b := ResolveEach(data.entries).value;
    if Compile in KeySet(data.entries) {
      var i :| 0 <= i < |data.entries| && data.entries[i].0 == Compile;
      assert b[i].0 == Compile;
    }
  }

  /** The fields of a three-entry descriptor `{url, data, form-data}`. */
  lemma SampleDescriptorFields(url: Value, data: Value, form: Value)
    ensures var desc := [("url", url), ("data", data), ("form-data", form)];
      && Lookup(desc, "url") == Some(url) && Lookup(desc, "data") == Some(data)
      && Lookup(desc, "form-data") == Some(form)
      && Lookup(desc, "params") == None && Lookup(desc, "headers") == None
  {
    var desc := [("url", url), ("data", data), ("form-data", form)];
    assert "url" != "data" && "url" != "params" && "data" != "params" && "form-data" != "params";
    assert "url" != "headers" && "data" != "headers" && "form-data" != "headers";
    assert "url" != "form-data" && "data" != "form-data";
    assert Lookup(desc[1..], "data") == Some(data);
    assert Lookup(desc[2..], "params") == None && Lookup(desc[1..], "params") == None;
    assert Lookup(desc[2..], "headers") == None && Lookup(desc[1..], "headers") == None;
    assert Lookup(desc[1..], "form-data") == Some(form);
  }

  /** The same data sent by `_create` and by `_update`: create splices the
      merge mapping, update keeps the `__compile__` key. */
  lemma CreateSplicesUpdateKeeps()
    ensures var data := Map([(Compile, Map([("a", Int(1))]))]);
      var desc := Map([("url", Str("/items/")), ("data", data), ("form-data", Bool(false))]);
      && CreatePlan(Some(desc), []).Ok? && CreatePlan(Some(desc), []).value.body == JsonDump(Map([("a", Int(1))]))
      && UpdatePlan(Some(desc), []).Ok?
      && UpdatePlan(Some(desc), []).value.body == JsonDump(Map([(Compile, Map([("a", Int(1))]))]))
  {
    var m := [("a", Int(1))];
    var es := [(Compile, Map(m))];
    var desc := [("url", Str("/items/")), ("data", Map(es)), ("form-data", Bool(false))];
    assert "a" != Compile;
    assert Resolve(Map(m)) == Ok(Map(m)) by {
      assert Set(m, "a", Int(1)) == m;
      assert Walk(m, m) == Walk([], m);
    }
    assert Set(es, "a", Int(1)) == es + m;
    assert Update(es, m) == es + m;
    assert Delete(es + m, Compile) == m by {
      assert Delete(m, Compile) == m;
    }
    assert Walk(es, es) == Walk([], m);
    assert Update(m, m) == m by {
      assert Set(m, "a", Int(1)) == m;
    }
    SampleDescriptorFields(Str("/items/"), Map(es), Bool(false));
    assert Walk([], []) == Ok([]);
    assert ResolveEach(es) == Ok(es) by {
      assert ResolveEach(es[1..]) == Ok([]);
      assert [(Compile, Map(m))] + [] == es;
    }
  }

  // ---------------------------------------------------------------------
  // _destroy

  /** `DestroyBaseTask._destroy`: requires a `destroy` descriptor, but sends
      its DELETE to the url and params of the `update` descriptor. */
  function DestroyPlan(destroy: Option<Value>, update: Option<Value>, headers: Dict): Result<Request> {
    if destroy.None? then Err(MissingConfiguration)
    else if update.None? then Err(NotAMapping)
    else
      var d :- CheckDescriptor(update.value);
      var url :- CompileResource(UrlOf(d), ParamsOf(d));
      Ok(Request(DELETE, url, NoBody, headers))
  }

  /** What the `destroy` descriptor holds never matters, only that it exists;
      the DELETE goes to the `update` descriptor's url and resolved params. */
  lemma DestroyUsesUpdateDescriptor(destroy: Option<Value>, other: Value, update: Option<Value>, headers: Dict)
    requires update.Some? && update.value.Map? ==> DistinctDeep(update.value)
    ensures destroy.None? ==> DestroyPlan(destroy, update, headers) == Err(MissingConfiguration)
    ensures destroy.Some? ==> DestroyPlan(destroy, update, headers) == DestroyPlan(Some(other), update, headers)
    ensures DestroyPlan(destroy, update, headers).Ok? <==>
      && destroy.Some? && update.Some? && update.value.Map?
      && Truthy(UrlOf(update.value.entries)) && UrlOf(update.value.entries).Str?
      && ParamsOf(update.value.entries).Map? && Resolve(ParamsOf(update.value.entries)).Ok?
    ensures DestroyPlan(destroy, update, headers).Ok? ==>
      var u := update.value.entries;
      DestroyPlan(destroy, update, headers).value ==
        Request(DELETE, Compiled(UrlOf(u).s, Resolve(ParamsOf(u)).value.entries), NoBody, headers)
  {
    if update.Some? && update.value.Map? {
      ParamsDistinct(update.value.entries);
      CompileResourceSpec(UrlOf(update.value.entries), ParamsOf(update.value.entries));
    }
  }

  // ---------------------------------------------------------------------
  // MultipleListBaseTask._list and MultipleRetrieveBaseTask._retrieve

  /** `for x in v`: a list or tuple yields its items, a dict its keys, a
      string its characters; anything else cannot be iterated. */
  function Iterate(v: Value): Result<seq<Value>> {
    match v
    case Seq(items) => Ok(items)
    case Map(es) => Ok(seq(|es|, i requires 0 <= i < |es| => Str(es[i].0)))
    case Str(s) => Ok(seq(|s|, i requires 0 <= i < |s| => Str([s[i]])))
    case _ => Err(NotIterable)
  }

  /** The first loop: every descriptor is checked, in order, before anything
      is sent. */
  function ValidateAll(items: seq<Value>): Result<()> {
    if items == [] then Ok(())
    else
      var _ :- CheckDescriptor(items[0]);
      ValidateAll(items[1..])
  }

  /** The second loop: one GET per descriptor, in order; a descriptor whose
      params fail to compile stops the loop after the GETs already sent. */
  function SendAll(items: seq<Value>, headers: Dict): (seq<Request>, Result<()>)
    requires forall i :: 0 <= i < |items| ==> items[i].Map?
  {
    if items == [] then ([], Ok(()))
    else
      match GetRequest(items[0].entries, headers)
      case Err(e) => ([], Err(e))
      case Ok(req) =>
        var (rest, out) := SendAll(items[1..], headers);
        ([req] + rest, out)
  }

  lemma {:induction false} ValidateAllSpec(items: seq<Value>)
    ensures ValidateAll(items).Ok? <==> forall i :: 0 <= i < |items| ==> CheckDescriptor(items[i]).Ok?
  {
    if items != [] {
      ValidateAllSpec(items[1..]);
      if CheckDescriptor(items[0]).Ok? && !ValidateAll(items).Ok? {
        var i :| 0 <= i < |items[1..]| && !CheckDescriptor(items[1..][i]).Ok?;
        assert items[1..][i] == items[i + 1];
      }
      if ValidateAll(items).Ok? {
        forall i | 0 <= i < |items| ensures CheckDescriptor(items[i]).Ok? {
          if i > 0 {
            assert items[1..][i - 1] == items[i];
          }
        }
      }
    }
  }

  /** The multi-descriptor tasks: the requests sent, in order, and how the
      task ended. */
  function MultiPlan(descs: Option<Value>, headers: Dict): (seq<Request>, Result<()>) {
    if descs.None? then ([], Err(MissingConfiguration))
    else
      match Iterate(descs.value)
      case Err(e) => ([], Err(e))
      case Ok(items) =>
        match ValidateAll(items)
        case Err(e) => ([], Err(e))
        case Ok(_) =>
          ValidateAllSpec(items);
          SendAll(items, headers)
  }

  /** If any descriptor is not a dict with a url, nothing is sent. */
  lemma MultiSendsNothingWithoutUrls(items: seq<Value>, headers: Dict, i: nat)
    requires i < |items| && !CheckDescriptor(items[i]).Ok?
    ensures MultiPlan(Some(Seq(items)), headers).0 == []
    ensures MultiPlan(Some(Seq(items)), headers).1.Err?
  {
    ValidateAllSpec(items);
  }

  /** `SendAll` on a suffix, unfolded once. */
  lemma SendAllAt(items: seq<Value>, headers: Dict, i: nat)
    requires forall j :: 0 <= j < |items| ==> items[j].Map?
    requires i < |items|
    ensures var g := GetRequest(items[i].entries, headers);
      SendAll(items[i..], headers) ==
        if g.Err? then ([], Err(g.error))
        else ([g.value] + SendAll(items[i + 1..], headers).0, SendAll(items[i + 1..], headers).1)
  {
    assert items[i..][0] == items[i] && items[i..][1..] == items[i + 1..];
  }

  /** One step of the send loop: after the GETs `sent`, the next descriptor
      either stops the loop with its error or adds its GET. */
  lemma SendAllStep(items: seq<Value>, headers: Dict, i: nat, sent: seq<Request>)
    requires forall j :: 0 <= j < |items| ==> items[j].Map?
    requires i < |items|
    requires SendAll(items, headers) == (sent + SendAll(items[i..], headers).0, SendAll(items[i..], headers).1)
    ensures var g := GetRequest(items[i].entries, headers);
      SendAll(items, headers) ==
        if g.Err? then (sent, Err(g.error))
        else (sent + [g.value] + SendAll(items[i + 1..], headers).0, SendAll(items[i + 1..], headers).1)
  {
    SendAllAt(items, headers, i);
    var g := GetRequest(items[i].entries, headers);
    if g.Err? {
      assert sent + [] == sent;
    } else {
      assert sent + ([g.value] + SendAll(items[i + 1..], headers).0) ==
        sent + [g.value] + SendAll(items[i + 1..], headers).0;
    }
  }

  /** Whatever happens, the requests sent are GETs for a prefix of the
      descriptors, in order; all of them are sent when the task ends well. */
  lemma {:induction false} SendAllSpec(items: seq<Value>, headers: Dict)
    requires forall i :: 0 <= i < |items| ==> items[i].Map?
    ensures var (sent, out) := SendAll(items, headers);
      && |sent| <= |items|
      && (forall i :: 0 <= i < |sent| ==> GetRequest(items[i].entries, headers) == Ok(sent[i]))
      && (out.Ok? <==> forall i :: 0 <= i < |items| ==> GetRequest(items[i].entries, headers).Ok?)
      && (out.Ok? ==> |sent| == |items|)
      && (out.Err? ==> |sent| < |items| && GetRequest(items[|sent|].entries, headers).Err?)
  {
    SendAllPrefix(items, headers);
    SendAllOutcome(items, headers);
  }

  lemma {:induction false} SendAllPrefix(items: seq<Value>, headers: Dict)
    requires forall i :: 0 <= i < |items| ==> items[i].Map?
    ensures var sent := SendAll(items, headers).0;
      && |sent| <= |items|
      && forall i :: 0 <= i < |sent| ==> GetRequest(items[i].entries, headers) == Ok(sent[i])
  {
    if items != [] {
      var g := GetRequest(items[0].entries, headers);
      if g.Ok? {
        SendAllPrefix(items[1..], headers);
        var rest := SendAll(items[1..], headers).0;
        var sent := SendAll(items, headers).0;
        assert sent == [g.value] + rest;
        forall i | 0 <= i < |sent| ensures GetRequest(items[i].entries, headers) == Ok(sent[i]) {
          if i > 0 {
            assert items[1..][i - 1] == items[i];
          }
        }
      }
    }
  }

  lemma {:induction false} SendAllOutcome(items: seq<Value>, headers: Dict)
    requires forall i :: 0 <= i < |items| ==> items[i].Map?
    ensures var (sent, out) := SendAll(items, headers);
      && (out.Ok? <==> forall i :: 0 <= i < |items| ==> GetRequest(items[i].entries, headers).Ok?)
      && (out.Ok? ==> |sent| == |items|)
      && (out.Err? ==> |sent| < |items| && GetRequest(items[|sent|].entries, headers).Err?)
  {
    if items != [] {
      var g := GetRequest(items[0].entries, headers);
      if g.Ok? {
        SendAllOutcome(items[1..], headers);
        var (rest, out') := SendAll(items[1..], headers);
        assert SendAll(items, headers) == ([g.value] + rest, out');
        if out'.Ok? {
          forall i | 0 <= i < |items| ensures GetRequest(items[i].entries, headers).Ok? {
            if i > 0 {
              assert items[1..][i - 1] == items[i];
            }
          }
        } else {
          assert items[1..][|rest|] == items[|rest| + 1];
          var j := |rest|;
          assert !GetRequest(items[j + 1].entries, headers).Ok?;
        }
      }
    }
  }

  /** A list of descriptors that all carry a url and compile sends exactly
      one GET per descriptor, in list order; an empty list sends nothing. */
  lemma MultiOneGetPerDescriptor(items: seq<Value>, headers: Dict)
    requires forall i :: 0 <= i < |items| ==>
      CheckDescriptor(items[i]).Ok? && GetRequest(items[i].entries, headers).Ok?
    ensures var (sent, out) := MultiPlan(Some(Seq(items)), headers);
      && out.Ok? && |sent| == |items|
      && forall i :: 0 <= i < |items| ==>
           (items[i].Map? && sent[i] == GetRequest(items[i].entries, headers).value && sent[i].verb == GET)
  {
    ValidateAllSpec(items);
    SendAllSpec(items, headers);
  }

  lemma EmptyMultiSendsNothing(headers: Dict)
    ensures MultiPlan(Some(Seq([])), headers) == ([], Ok(()))
  {
  }
}
