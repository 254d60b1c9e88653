# rest_locust request planning, in Dafny

This project models the logic of `rest_locust`. That library is a layer of
mixin task sets over Locust. Each task reads a declarative *action
descriptor* (`list`, `retrieve`, `create`, `update`, `destroy`) and turns it
into HTTP requests. The model covers three parts:

- **The value resolver** `BaseTaskSet.unpack_values` (`resolver.dfy`). It walks
  a payload. In every dict reached through dict values, it replaces each
  callable by the value that callable returns. It also splices the mapping
  held under the reserved key `__compile__` into the enclosing dict, then
  deletes the key. Payloads are the datatype `Value`:
  - `Null`, `Bool`, `Int`, `Str` are scalars.
  - `Seq` is a list or tuple, never looked into.
  - `Map` is a dict, kept as an insertion-ordered association list.
  - `Thunk(result)` is a zero-argument callable returning `result`.

  The dict operations the source relies on are in `values.dfy`: `d[k] = v`
  keeps an existing key in place and appends a new one, `dict.update` stores
  entries one by one, and `del` removes a key. The function `Resolve` is
  proved equal to `UnpackValues`, a method with the source's loop over a
  snapshot that rewrites the dict in place. `Resolve` is then characterised
  by a reference definition: the resolved dict is the original dict, updated
  in snapshot order with the writes of its entries, with `__compile__`
  removed.
- **The tasks** `_list`, `_retrieve`, `_create`, `_update`, `_destroy` and the
  two multi-descriptor variants (`tasks.dfy`). Each is a planner: a function
  from the descriptor and the current headers to either a failure or the
  request to send. A request is a verb, a URL, a body and headers. The URL is
  the pair (template, resolved parameters) that Jinja2 would render. The
  body is form data or a JSON dump of a value. Python truthiness decides the
  validation, as in the source.
- **The task set object** (`taskset.dfy`). The class `RestTaskSet` holds the
  session token, the descriptors and the log of requests handed to the
  client. `OnStart` stores the token only on HTTP 200. Every task method
  modifies only the log. So the descriptors, and the callables inside them,
  are still there for the next run, which calls them again. The
  multi-descriptor tasks keep the source's two loops. The first loop checks
  every descriptor. The second sends one GET per descriptor.

Behaviour kept literally, as the code has it:
- `_destroy` checks that a `destroy` descriptor exists, then sends its DELETE
  to the url and params of the `update` descriptor.
- `_update` resolves only the top-level values one by one. A top-level
  `__compile__` key therefore stays in its body, with its resolved value.
- `_update` ignores per-action headers and always sends JSON.
- A callable can survive resolution inside a list or inside a callable's result. `json.dumps` then fails after the URL is compiled, so `_update`, and `_create` with a JSON body, send nothing.
- `_create` chooses its encoding with the descriptor key `'form-data'`, whose
  default is true, and not with a `form_encoded` field.
- In `compile_resource` and `_create`, the deep copy is resolved in place.
  Then `update` is called with the resolved dict itself, which changes
  nothing (`Values.UpdateSelf`). The parameters are therefore not a merge of
  raw and resolved values.
- A multi-descriptor task can fail in its second loop. That happens when one
  descriptor's params do not compile. The GETs for the earlier descriptors
  have then already been sent.
- `raise(KeyError, '...')` raises a tuple, which is a `TypeError` in
  Python 3. The model keeps only the consequence: the task fails before
  sending. Python's exception classes are collapsed into the datatype
  `Values.Error`.

## Model

| member | source | states |
|---|---|---|
| Resolver.Walk | rest_locust/base.py:31-41 | the loop over the snapshot; no contract of its own, characterised by `WalkSpec` and `ResolveMapSpec` |
| Resolver.Resolve | rest_locust/base.py:21-44 | resolving a dict yields a dict (or an error) |
| Resolver.UnpackValues | rest_locust/base.py:30-44 | the loop over a snapshot that rewrites the dict in place computes exactly `Resolve`, errors included |
| Resolver.ResolveMapSpec | rest_locust/base.py:31-41 | a resolved dict is the original dict updated with the snapshot's writes in snapshot order, minus `__compile__`; it fails exactly when those writes fail, with the same error |
| Resolver.WritesKeys | rest_locust/base.py:36-40 | the writes cover every key of the snapshot except `__compile__`, plus the spliced keys, and nothing else |
| Resolver.ResolvedHasNoMergeKey | rest_locust/base.py:36-38 | a resolved dict has no `__compile__` key |
| Resolver.ResolvedKeys | rest_locust/base.py:31-40 | the keys of a resolved dict are the original keys minus `__compile__`, plus the keys of the resolved merge mapping (minus `__compile__`) |
| Resolver.ResolvedLookup | rest_locust/base.py:31-40 | every key of a resolved dict holds the last value written to it in snapshot order, so on a collision between a spliced key and a sibling the later entry wins |
| Resolver.ResolvedDistinct | rest_locust/base.py:31-41 | resolving keeps a dict's keys unique |
| Resolver.ResolveResolves | rest_locust/base.py:30-44 | if every callable returns a value without callables or `__compile__` keys, then no dict reached through dict values of the result has a callable or a `__compile__` key |
| Resolver.ResolveFixpoint | rest_locust/base.py:30-44 | a value without callables or `__compile__` keys (through dict values) resolves to itself |
| Resolver.ResolveIdempotent | rest_locust/base.py:21-44 | resolving twice equals resolving once when callables return resolved values |
| Resolver.ThunkResultNotResolvedFurther | rest_locust/base.py:42-43 | example: a callable returning a dict that holds a callable resolves to that dict verbatim, inner callable included |
| Resolver.NestedMergeKeyFromThunkSurvives | rest_locust/base.py:42-43 | example: a `__compile__` key inside a callable's returned dict survives resolution, so the deep property needs its hypothesis |
| Resolver.ListsAreNotTraversed | rest_locust/base.py:44 | example: a dict value that is a list holding a callable is returned unchanged |
| Resolver.LaterWriteWins | rest_locust/base.py:36-40 | example: a sibling after `__compile__` overrides the spliced value; a sibling before it is overridden (the general rule is `ResolvedLookup`) |
| Resolver.MergeOfNonMappingFails | rest_locust/base.py:36-38 | for any value and any following entries, a leading `__compile__` entry whose value resolves to something other than a dict makes resolution fail with `InvalidMergeTarget` |
| Values.Truthy | rest_locust/base.py:98 | Python truthiness as the `if not ...` tests use it (also lines 144, 150, 159); a plain predicate, used by `CheckDescriptor`, `CreateNeedsUrlAndData`, `CreateSucceeds` and `UpdateSucceeds` |
| Values.Set | rest_locust/base.py:40 | `d[k] = v` through `update({k: v})`; no contract of its own, characterised by `SetLookup`, `SetKeys` and `SetExisting` |
| Values.Update | rest_locust/base.py:37 | `dict.update`; no contract of its own, characterised by `UpdateLookup`, `UpdateKeys` and `UpdateSelf` |
| Values.Delete | rest_locust/base.py:38 | `del d[k]`; no contract of its own, characterised by `DeleteLookup` and `DeleteKeys` |
| Values.Lookup | rest_locust/base.py:98 | `dict.get` finds a value exactly for the keys present |
| Values.UpdateLookup | rest_locust/base.py:37 | after `d.update(e)` a key holds its last value in `e` if `e` has it, else its value in `d` |
| Values.UpdateSelf | rest_locust/base.py:53 | `d.update(d)` leaves a dict unchanged |
| Values.DeleteLookup | rest_locust/base.py:38 | after `del d[k]`, `k` is absent and every other key keeps its value |
| Tasks.GetHeaders | rest_locust/base.py:61-64 | exactly the two headers `Content-Type: application/json` and `Authorization: <title> <str(token)>` |
| Tasks.TokenText | rest_locust/base.py:63 | `str(token)`: the stored token, or `None` before one is stored; a plain function, pinned down by `HeadersBeforeLogin` and `GetHeaders` |
| Tasks.DefaultTokenRequestHeaders | rest_locust/base.py:14-16 | the class-default `headers` hold only `Content-Type: application/json`, the same content type `get_headers()` sends |
| Tasks.HeadersBeforeLogin | rest_locust/base.py:17-19 | before a token is stored the Authorization header is `JWT None` |
| Tasks.CompileResource | rest_locust/base.py:46-54 | no contract of its own, characterised by `CompileResourceSpec` |
| Tasks.CompileResourceSpec | rest_locust/base.py:46-54 | a non-string template fails first; otherwise compiling succeeds exactly when the params are a dict that resolves, and renders the template string against the resolved params |
| Values.GetOr | rest_locust/base.py:98 | `d.get(k, default)`; a plain function over `Lookup`, whose contract says when the key is found |
| Tasks.UrlOf | rest_locust/base.py:98 | `desc.get('url', None)`; a plain function over `GetOr` |
| Tasks.ParamsOf | rest_locust/base.py:103 | `desc.get('params', {})`; a plain function over `GetOr` |
| Tasks.CheckDescriptor | rest_locust/base.py:98-99 | a descriptor passes exactly when it is a dict whose `url` is present and truthy |
| Tasks.GetRequest | rest_locust/base.py:101-105 | the GET of one validated descriptor (also lines 216-221); no contract of its own, characterised by `GetPlanSpec` and `SendAllSpec` |
| Tasks.CallableUrlNotSent | rest_locust/base.py:51 | example: a callable `url` is refused as a template, so no GET is sent |
| Tasks.GetPlan | rest_locust/base.py:91-105 | `_list` (and `_retrieve`, lines 113-128); no contract of its own, characterised by `GetPlanSpec` |
| Tasks.GetPlanSpec | rest_locust/base.py:91-105 | list/retrieve sends one body-less GET to the url with resolved params exactly when the descriptor is a dict with a truthy string url whose params resolve |
| Tasks.CreateHeaders | rest_locust/base.py:147-148 | `get_headers()` updated with the descriptor's truthy `headers`; no contract of its own, characterised in `CreateRequestSpec` |
| Tasks.CreatePlan | rest_locust/base.py:136-162 | no contract of its own, characterised by `CreateNeedsUrlAndData`, `CreateSucceeds` and `CreateRequestSpec` |
| Tasks.CreateNeedsUrlAndData | rest_locust/base.py:140-151 | create fails before sending when url or data is missing or false (with MissingConfiguration when the url is) |
| Tasks.CreateSucceeds | rest_locust/base.py:140-162 | a create is sent exactly when the descriptor is a dict with a truthy string url, any truthy `headers` is a dict, the data is a non-empty dict that resolves, the params resolve, and, for a JSON body, the resolved data holds no callable |
| Tasks.CreateRequestSpec | rest_locust/base.py:140-162 | a sent create is one POST to the url with resolved params, with `get_headers()` overridden key by key by the descriptor's headers, and the resolved data as form data unless `'form-data'` is present and false |
| Tasks.JsonEncodable | rest_locust/base.py:194 | `json.dumps` succeeds exactly when no callable is left in the value (also line 160); a plain predicate, used by `CreateSucceeds` and `UpdateSucceeds` |
| Tasks.ResolveEach | rest_locust/base.py:184-189 | the `_update` loop as a function; no contract of its own, characterised by `ResolveEachSpec` |
| Tasks.ResolveEachSpec | rest_locust/base.py:183-189 | the update loop keeps every key in place, each with its own resolved value, and fails exactly when one value fails |
| Tasks.ResolveTopLevel | rest_locust/base.py:183-189 | the in-place loop over `_data.items()` computes exactly `ResolveEach` |
| Tasks.UpdatePlan | rest_locust/base.py:174-196 | no contract of its own, characterised by `UpdateSucceeds` and `UpdateRequestSpec` |
| Tasks.UpdateSucceeds | rest_locust/base.py:174-196 | an update is sent exactly when the descriptor is a dict with a truthy string url, the data is a non-empty dict whose every value resolves to something without a callable in it, and the params resolve |
| Tasks.UpdateWithCallableInListNotSent | rest_locust/base.py:183-194 | example: a callable inside a list in the data survives resolution, so `json.dumps` fails and no PUT is sent |
| Tasks.UpdateRequestSpec | rest_locust/base.py:170-196 | a sent update is one PUT with `get_headers()` and a JSON body with the data's keys in order and their resolved values; a top-level `__compile__` key is kept |
| Tasks.CreateSplicesUpdateKeeps | rest_locust/base.py:183-189 | the same data gives a spliced body under create and a body keeping `__compile__` under update |
| Tasks.DestroyPlan | rest_locust/base.py:254-268 | no contract of its own, characterised by `DestroyUsesUpdateDescriptor` |
| Tasks.DestroyUsesUpdateDescriptor | rest_locust/base.py:258-267 | destroy fails without a `destroy` descriptor and ignores its contents; it is sent exactly when a `destroy` descriptor exists and the `update` descriptor is a dict with a truthy string url whose params resolve, and then its DELETE goes to the `update` descriptor's url and resolved params |
| Tasks.Iterate | rest_locust/base.py:212 | `for x in v` over a list, dict or string, failing on anything else; a plain function |
| Tasks.ValidateAll | rest_locust/base.py:212-214 | the first multi loop; no contract of its own, characterised by `ValidateAllSpec` |
| Tasks.SendAll | rest_locust/base.py:216-221 | the second multi loop; no contract of its own, characterised by `SendAllSpec` |
| Tasks.MultiPlan | rest_locust/base.py:209-221 | both multi tasks (also lines 235-246); no contract of its own, characterised by `MultiSendsNothingWithoutUrls`, `MultiOneGetPerDescriptor` and `EmptyMultiSendsNothing` |
| Tasks.ValidateAllSpec | rest_locust/base.py:212-214 | the first multi loop passes exactly when every descriptor is a dict with a truthy url |
| Tasks.SendAllSpec | rest_locust/base.py:216-221 | the second multi loop sends GETs for a prefix of the descriptors in order; all of them exactly when every one compiles, else it stops at the first that does not |
| Tasks.MultiSendsNothingWithoutUrls | rest_locust/base.py:238-240 | if any descriptor lacks a url nothing is sent and the task fails |
| Tasks.MultiOneGetPerDescriptor | rest_locust/base.py:242-246 | when every descriptor has a url and compiles, exactly one GET per descriptor is sent, in list order |
| Tasks.EmptyMultiSendsNothing | rest_locust/base.py:228 | the default empty list sends nothing and succeeds |
| TaskSets.RestTaskSet.constructor | rest_locust/base.py:14-19 | a new task set keeps the given `token_title`, `token_url` and `headers` (the class defaults are `JWT`, `None` and the JSON content type), has no token, an empty log, and its `get_headers()` carries `<title> None` |
| TaskSets.RestTaskSet.Headers | rest_locust/base.py:56-64 | `self.get_headers()` on the current title and token; a plain function, characterised by `GetHeaders` |
| TaskSets.RestTaskSet.OnStart | rest_locust/base.py:66-81 | without a credentials hook it fails before sending; otherwise it posts the credentials with the class's `headers` and stores the response's token only on status 200 |
| TaskSets.RestTaskSet.Issue | rest_locust/base.py:101-105 | hands the planned request to the client (as every task's client call does): exactly one request is appended to the log when the plan succeeds, none when it fails, and the task's outcome follows the plan |
| TaskSets.RestTaskSet.List | rest_locust/base.py:90-105 | appends the planned GET to the log or fails without sending; descriptors and token unchanged |
| TaskSets.RestTaskSet.Retrieve | rest_locust/base.py:112-128 | appends the planned GET to the log or fails without sending; descriptors and token unchanged |
| TaskSets.RestTaskSet.Create | rest_locust/base.py:135-162 | appends the planned POST to the log or fails without sending; the descriptor keeps its callables for the next run |
| TaskSets.RestTaskSet.Update | rest_locust/base.py:169-196 | appends the planned PUT to the log or fails without sending; the descriptor keeps its callables for the next run |
| TaskSets.RestTaskSet.Destroy | rest_locust/base.py:253-268 | appends the planned DELETE to the log or fails without sending |
| TaskSets.RestTaskSet.MultiList | rest_locust/base.py:230-246 | appends exactly the GETs of the multi plan for `list`, in order |
| TaskSets.RestTaskSet.MultiRetrieve | rest_locust/base.py:203-221 | appends exactly the GETs of the multi plan for `retrieve`, in order |
| TaskSets.RestTaskSet.SendEach | rest_locust/base.py:209-221 | the two loops (validate all, then send each) append exactly the multi plan's requests and end with its outcome |
| TaskSets.CheckEach | rest_locust/base.py:212-214 | the first multi loop returns exactly the outcome of `ValidateAll`: success when every descriptor is a dict with a truthy url, else the first failure |
| TaskSets.RestTaskSet.SendGets | rest_locust/base.py:216-221 | the second multi loop appends exactly the GETs `SendAll` plans, in order, and ends with its outcome |

## Left out

- The Locust runtime is not modelled: `TaskSet`, `@task`, `HttpLocust`, scheduling, and the HTTP transport. The client is the request log, and the token endpoint's answer is a parameter of `OnStart`.
- Jinja2 rendering is not modelled. A URL is the pair (template string, resolved params). The only template failure modelled is a template that is not a string (`NotATemplate`). Undefined template variables and template syntax errors are not modelled.
- `json.dumps` is a body tag holding the value it encodes; its only failure modelled is a callable left in the value (`JsonEncodable`). `response.json()` is abstracted into the `Response` record: JSON decoding errors are not modelled, and `str()` of a non-string token is not modelled.
- `deepcopy` is implicit: Dafny values are immutable trees. Cyclic payloads cannot be built.
- Shared sub-dicts (aliasing) are not modelled. `deepcopy` keeps sharing, so a dict reached twice in a payload is resolved in place twice in Python, the second time starting from its already resolved contents. The model resolves each occurrence from the original. The results differ when a callable in a shared dict returns a value that still holds callables or `__compile__`. For example, a dict `{"x": f}` stored under two keys, where `f` returns `{"y": g}`: Python calls `g` on the second visit, the model leaves it in place under both keys.
- Callables are deterministic stand-ins. Their side effects are not modelled, and neither is the number of times they are called; only the descriptors' persistence between runs is.
- Dict keys are strings.
- `dict.update` also accepts an iterable of key/value pairs. The model treats any non-dict merge value, or non-dict `headers` value, as a failure.
- `UpdateBaseTask` and `DestroyBaseTask` inherit plain `TaskSet`. Used alone, they would lack `get_headers` and `compile_resource`. The model uses them as composed in `RESTBaseTask`.
- The composition-only classes (`ListRetrieveTask` … `RESTBaseTask`) add no logic and are not modelled. `setup.py` is not part of this model.
- Resolver.ResolveResolves: the deep "no `__compile__`, no callable" property is proved only when callables return resolved values. Without that hypothesis it fails, as `NestedMergeKeyFromThunkSurvives` shows.
