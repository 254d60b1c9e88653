/** The task set as an object: the session token it stores on start, the
    action descriptors it was configured with, and the log of requests handed
    to the HTTP client. */
module TaskSets {
  import opened Values
  import opened Tasks

  /** What the token endpoint answered: its status code, and the `token` field
      of its JSON body as text when that field is present and not null. */
  datatype Response = Response(status: int, token: Option<string>)

  /** `if plan.Ok?` exactly one request was appended to the log and the task
      ended well; otherwise nothing was sent and the task failed. */
  ghost predicate SentOne(before: seq<Request>, after: seq<Request>, out: Result<()>, plan: Result<Request>) {
    if plan.Ok? then after == before + [plan.value] && out == Ok(())
    else after == before && out == Err(plan.error)
  }

  /** The first loop of the multi-descriptor tasks: every descriptor must be
      a dict with a truthy url, checked in order before anything is sent. */
  method CheckEach(items: seq<Value>) returns (out: Result<()>)
    ensures out == ValidateAll(items)
  {
    var i := 0;
    assert items[0..] == items;
    while i < |items|
      invariant 0 <= i <= |items|
      invariant ValidateAll(items) == ValidateAll(items[i..])
    {
      assert items[i..][0] == items[i] && items[i..][1..] == items[i + 1..];
      var checked := CheckDescriptor(items[i]);
      if checked.Err? {
        return Err(checked.error);
      }
      i := i + 1;
    }
    return Ok(());
  }

  class RestTaskSet {
    /** The class attributes a subclass overrides: `token_title` (default
        `DefaultTokenTitle`), `token_url`, and `headers` (default
        `JsonContentType`), which only the token request sends. */
    const tokenTitle: string
    const tokenUrl: Value
    const headers: Dict
    var token: Option<string>
    /** The requests handed to the client, oldest first. */
    var log: seq<Request>
    /** The action descriptors; `None` when the attribute is not set at all.
        `ListBaseTask` defaults `list` to `Some(Null)`, `MultipleListBaseTask`
        to `Some(Seq([]))`. */
    var list: Option<Value>
    var retrieve: Option<Value>
    var create: Option<Value>
    var update: Option<Value>
    var destroy: Option<Value>

    constructor (tokenTitle: string, tokenUrl: Value, headers: Dict,
                 list: Option<Value>, retrieve: Option<Value>,
                 create: Option<Value>, update: Option<Value>, destroy: Option<Value>)
      ensures this.tokenTitle == tokenTitle && this.tokenUrl == tokenUrl && this.headers == headers
      ensures token == None && log == []
      ensures Headers() == GetHeaders(tokenTitle, None)
      ensures this.list == list && this.retrieve == retrieve && this.create == create
      ensures this.update == update && this.destroy == destroy
    {
      this.tokenTitle := tokenTitle;
      this.tokenUrl := tokenUrl;
      this.headers := headers;
      token := None;
      log := [];
      this.list := list;
      this.retrieve := retrieve;
      this.create := create;
      this.update := update;
      this.destroy := destroy;
    }

    /** `self.get_headers()` */
    function Headers(): Dict
      reads this
    {
      GetHeaders(tokenTitle, token)
    }

    /** `on_start`: without a credentials hook it fails before sending;
        otherwise it posts the credentials to the token url with the class's
        `headers`, and stores the returned token only on HTTP 200
        (an absent token is stored as no token). */
    method OnStart(credentials: Option<Value>, response: Response) returns (out: Result<()>)
      modifies this`log, this`token
      ensures credentials.None? ==>
        out == Err(NotImplemented) && log == old(log) && token == old(token)
      ensures credentials.Some? ==>
        && out == Ok(())
        && log == old(log) + [Request(POST, Raw(tokenUrl), FormData(credentials.value), headers)]
        && token == (if response.status == 200 then response.token else old(token))
    {
      if credentials.None? {
        return Err(NotImplemented);
      }
      log := log + [Request(POST, Raw(tokenUrl), FormData(credentials.value), headers)];
      if response.status == 200 {
        token := response.token;
      }
      return Ok(());
    }

    /** Sends the planned request, if any. Only the log changes: the
        descriptors keep their callables, which the next run calls again. */
    method Issue(plan: Result<Request>) returns (out: Result<()>)
      modifies this`log
      ensures SentOne(old(log), log, out, plan)
    {
      if plan.Err? {
        return Err(plan.error);
      }
      log := log + [plan.value];
      return Ok(());
    }

    /** `ListBaseTask._list` */
    method List() returns (out: Result<()>)
      modifies this`log
      ensures SentOne(old(log), log, out, GetPlan(list, Headers()))
    {
      out := Issue(GetPlan(list, Headers()));
    }

    /** `RetrieveBaseTask._retrieve` */
    method Retrieve() returns (out: Result<()>)
      modifies this`log
      ensures SentOne(old(log), log, out, GetPlan(retrieve, Headers()))
    {
      out := Issue(GetPlan(retrieve, Headers()));
    }

    /** `CreateBaseTask._create` */
    method Create() returns (out: Result<()>)
      modifies this`log
      ensures SentOne(old(log), log, out, CreatePlan(create, Headers()))
    {
      out := Issue(CreatePlan(create, Headers()));
    }

    /** `UpdateBaseTask._update` */
    method Update() returns (out: Result<()>)
      modifies this`log
      ensures SentOne(old(log), log, out, UpdatePlan(update, Headers()))
    {
      out := Issue(UpdatePlan(update, Headers()));
    }

    /** `DestroyBaseTask._destroy` */
    method Destroy() returns (out: Result<()>)
      modifies this`log
      ensures SentOne(old(log), log, out, DestroyPlan(destroy, update, Headers()))
    {
      out := Issue(DestroyPlan(destroy, update, Headers()));
    }

    /** `MultipleListBaseTask._list` */
    method MultiList() returns (out: Result<()>)
      modifies this`log
      ensures log == old(log) + MultiPlan(list, Headers()).0
      ensures out == MultiPlan(list, Headers()).1
    {
      out := SendEach(list);
    }

    /** `MultipleRetrieveBaseTask._retrieve` */
    method MultiRetrieve() returns (out: Result<()>)
      modifies this`log
      ensures log == old(log) + MultiPlan(retrieve, Headers()).0
      ensures out == MultiPlan(retrieve, Headers()).1
    {
      out := SendEach(retrieve);
    }

    /** The multi-descriptor tasks: every descriptor is checked first, then
        one GET is sent per descriptor. */
    method SendEach(descs: Option<Value>) returns (out: Result<()>)
      modifies this`log
      ensures log == old(log) + MultiPlan(descs, Headers()).0
      ensures out == MultiPlan(descs, Headers()).1
    {
      if descs.None? {
        return Err(MissingConfiguration);
      }
      var iterated := Iterate(descs.value);
      if iterated.Err? {
        return Err(iterated.error);
      }
      var items := iterated.value;
      out := CheckEach(items);
      if out.Err? {
        return;
      }
      ValidateAllSpec(items);
      out := SendGets(items, Headers());
    }

    /** The second loop: one GET per descriptor, in order. */
    method SendGets(items: seq<Value>, h: Dict) returns (out: Result<()>)
      requires forall i :: 0 <= i < |items| ==> items[i].Map?
      modifies this`log
      ensures log == old(log) + SendAll(items, h).0
      ensures out == SendAll(items, h).1
    {
      ghost var sent: seq<Request> := [];
      var i := 0;
      assert items[0..] == items;
      assert sent + SendAll(items, h).0 == SendAll(items, h).0;
      while i < |items|
        invariant 0 <= i <= |items|
        invariant log == old(log) + sent
        invariant SendAll(items, h) ==
          (sent + SendAll(items[i..], h).0, SendAll(items[i..], h).1)
      {
        var req := GetRequest(items[i].entries, h);
        SendAllStep(items, h, i, sent);
        if req.Err? {
          return Err(req.error);
        }
        log := log + [req.value];
        sent := sent + [req.value];
        i := i + 1;
      }
      assert sent + [] == sent;
      return Ok(());
    }
  }
}
