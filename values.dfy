/** Python-level values handled by the task sets, and the insertion-ordered
    dictionary operations (`d[k] = v`, `dict.update`, `del d[k]`) they use. */
module Values {

  datatype Option<+T> = None | Some(value: T)

  /** Why a task or the resolver stops before sending anything. */
  datatype Error =
    | MissingConfiguration   // `raise(KeyError, ...)`: a required descriptor or field is absent or empty
    | NotAMapping            // `.get`, `.items` or `.update` called on something that is not a dict
    | InvalidMergeTarget     // `dict.update` given something that is not a mapping
    | NotIterable            // `for ... in` over a value that cannot be iterated
    | NotImplemented         // `on_start` without a `get_credentials` hook
    | NotSerializable        // `json.dumps` given a value holding a callable
    | NotATemplate           // Jinja2's `from_string` given something that is not a string

  datatype Result<+T> = Ok(value: T) | Err(error: Error) {
    predicate IsFailure() { Err? }
    function PropagateFailure<U>(): Result<U>
      requires Err?
    {
      Err(error)
    }
    function Extract(): T
      requires Ok?
    {
      value
    }
  }

  /** A payload value. `Seq` stands for a list or tuple, which the resolver
      never descends into; `Map` is a dict as an association list in insertion
      order; `Thunk(result)` is a zero-argument callable that returns `result`. */
  datatype Value =
    | Null
    | Bool(b: bool)
    | Int(i: int)
    | Str(s: string)
    | Seq(items: seq<Value>)
    | Map(entries: seq<(string, Value)>)
    | Thunk(result: Value)

  type Dict = seq<(string, Value)>

  /** Python truthiness: `None`, `False`, `0`, `''`, `[]` and `{}` are false;
      callables are true. */
  predicate Truthy(v: Value) {
    match v
    case Null => false
    case Bool(b) => b
    case Int(i) => i != 0
    case Str(s) => s != []
    case Seq(items) => items != []
    case Map(entries) => entries != []
    case Thunk(_) => true
  }

  function KeySet(d: Dict): set<string> {
    set i | 0 <= i < |d| :: d[i].0
  }

  /** Python dict keys are unique. */
  predicate Distinct(d: Dict) {
    forall i, j :: 0 <= i < j < |d| ==> d[i].0 != d[j].0
  }

  /** Every dict reachable from `v`, through any container, has unique keys. */
  predicate DistinctDeep(v: Value) {
    match v
    case Map(es) => Distinct(es) && forall i :: 0 <= i < |es| ==> DistinctDeep(es[i].1)
    case Seq(items) => forall i :: 0 <= i < |items| ==> DistinctDeep(items[i])
    case Thunk(r) => DistinctDeep(r)
    case _ => true
  }

  /** `d.get(k)` */
  function Lookup(d: Dict, k: string): (r: Option<Value>)
    ensures r.Some? <==> k in KeySet(d)
  {
    if d == [] then None
    else if d[0].0 == k then Some(d[0].1)
    else (assert KeySet(d) == {d[0].0} + KeySet(d[1..]); Lookup(d[1..], k))
  }

  /** `d.get(k, default)` */
  function GetOr(d: Dict, k: string, default: Value): Value {
    match Lookup(d, k)
    case Some(v) => v
    case None => default
  }

  /** The value of the last entry of `e` with key `k`: the one a left-to-right
      `dict.update(e)` leaves behind. */
  function LookupLast(e: Dict, k: string): (r: Option<Value>)
    ensures r.Some? <==> k in KeySet(e)
  {
    if e == [] then None
    else
      assert KeySet(e) == {e[0].0} + KeySet(e[1..]);
      match LookupLast(e[1..], k)
      case Some(v) => Some(v)
      case None => if e[0].0 == k then Some(e[0].1) else None
  }

  /** `d[k] = v`: an existing key keeps its position, a new key goes last. */
  function Set(d: Dict, k: string, v: Value): Dict {
    if d == [] then [(k, v)]
    else if d[0].0 == k then [(k, v)] + d[1..]
    else [d[0]] + Set(d[1..], k, v)
  }

  /** `d.update(e)` for a dict `e`: its entries are stored one by one, in order. */
  function Update(d: Dict, e: Dict): Dict
    decreases |e|
  {
    if e == [] then d else Update(Set(d, e[0].0, e[0].1), e[1..])
  }

  /** `del d[k]` (when present); removes every entry with key `k`. */
  function Delete(d: Dict, k: string): Dict {
    if d == [] then []
    else if d[0].0 == k then Delete(d[1..], k)
    else [d[0]] + Delete(d[1..], k)
  }

  // ---------------------------------------------------------------------
  // Lemmas about the dictionary operations

  lemma {:induction false} KeySetCons(d: Dict)
    requires d != []
    ensures KeySet(d) == {d[0].0} + KeySet(d[1..])
  {
  }

  lemma {:induction false} LookupAt(d: Dict, i: nat)
    requires Distinct(d) && i < |d|
    ensures Lookup(d, d[i].0) == Some(d[i].1)
  {
    if i > 0 {
      LookupAt(d[1..], i - 1);
    }
  }

  lemma {:induction false} SetLookup(d: Dict, k: string, v: Value, j: string)
    ensures Lookup(Set(d, k, v), j) == if j == k then Some(v) else Lookup(d, j)
  {
    if d != [] && d[0].0 != k {
      SetLookup(d[1..], k, v, j);
    }
  }

  lemma {:induction false} SetKeys(d: Dict, k: string, v: Value)
    ensures KeySet(Set(d, k, v)) == KeySet(d) + {k}
  {
    if d != [] {
      KeySetCons(d);
      KeySetCons(Set(d, k, v));
      if d[0].0 != k {
        SetKeys(d[1..], k, v);
      } else {
        assert Set(d, k, v)[1..] == d[1..];
      }
    } else {
      assert Set(d, k, v)[0].0 == k;
    }
  }

  lemma {:induction false} SetDistinct(d: Dict, k: string, v: Value)
    requires Distinct(d)
    ensures Distinct(Set(d, k, v))
  {
    if d != [] {
      KeySetCons(d);
      if d[0].0 != k {
        SetDistinct(d[1..], k, v);
        SetKeys(d[1..], k, v);
        var s := Set(d, k, v);
        assert s == [d[0]] + Set(d[1..], k, v);
        forall i, j | 0 <= i < j < |s| ensures s[i].0 != s[j].0 {
          if i == 0 {
            assert s[j].0 in KeySet(Set(d[1..], k, v));
          }
        }
      }
    }
  }

  /** Storing the value a key already has changes nothing. */
  lemma {:induction false} SetExisting(d: Dict, k: string, v: Value)
    requires Lookup(d, k) == Some(v)
    ensures Set(d, k, v) == d
  {
    if d[0].0 != k {
      SetExisting(d[1..], k, v);
    }
  }

  lemma {:induction false} UpdateLookup(d: Dict, e: Dict, j: string)
    ensures Lookup(Update(d, e), j) ==
      match LookupLast(e, j) case Some(v) => Some(v) case None => Lookup(d, j)
    decreases |e|
  {
    if e != [] {
      UpdateLookup(Set(d, e[0].0, e[0].1), e[1..], j);
      SetLookup(d, e[0].0, e[0].1, j);
    }
  }

  lemma {:induction false} UpdateKeys(d: Dict, e: Dict)
    ensures KeySet(Update(d, e)) == KeySet(d) + KeySet(e)
    decreases |e|
  {
    if e != [] {
      KeySetCons(e);
      SetKeys(d, e[0].0, e[0].1);
      UpdateKeys(Set(d, e[0].0, e[0].1), e[1..]);
    }
  }

  lemma {:induction false} UpdateDistinct(d: Dict, e: Dict)
    requires Distinct(d)
    ensures Distinct(Update(d, e))
    decreases |e|
  {
    if e != [] {
      SetDistinct(d, e[0].0, e[0].1);
      UpdateDistinct(Set(d, e[0].0, e[0].1), e[1..]);
    }
  }

  lemma {:induction false} UpdateAppend(d: Dict, e1: Dict, e2: Dict)
    ensures Update(d, e1 + e2) == Update(Update(d, e1), e2)
    decreases |e1|
  {
    if e1 != [] {
      assert (e1 + e2)[0] == e1[0] && (e1 + e2)[1..] == e1[1..] + e2;
      UpdateAppend(Set(d, e1[0].0, e1[0].1), e1[1..], e2);
    } else {
      assert e1 + e2 == e2;
    }
  }

  /** `d.update(d)` leaves a dict with unique keys as it was. */
  lemma {:induction false} UpdateSelf(d: Dict)
    requires Distinct(d)
    ensures Update(d, d) == d
  {
    forall i | 0 <= i < |d| ensures Lookup(d, d[i].0) == Some(d[i].1) {
      LookupAt(d, i);
    }
    UpdateWithOwnEntries(d, d);
  }

  lemma {:induction false} UpdateWithOwnEntries(d: Dict, e: Dict)
    requires forall i :: 0 <= i < |e| ==> Lookup(d, e[i].0) == Some(e[i].1)
    ensures Update(d, e) == d
    decreases |e|
  {
    if e != [] {
      SetExisting(d, e[0].0, e[0].1);
      UpdateWithOwnEntries(d, e[1..]);
    }
  }

  lemma {:induction false} DeleteLookup(d: Dict, k: string, j: string)
    ensures Lookup(Delete(d, k), j) == if j == k then None else Lookup(d, j)
  {
    if d != [] {
      DeleteLookup(d[1..], k, j);
    }
  }

  lemma {:induction false} DeleteKeys(d: Dict, k: string)
    ensures KeySet(Delete(d, k)) == KeySet(d) - {k}
  {
    if d != [] {
      KeySetCons(d);
      DeleteKeys(d[1..], k);
      if d[0].0 != k {
        KeySetCons(Delete(d, k));
        assert Delete(d, k)[1..] == Delete(d[1..], k);
      }
    }
  }

  lemma {:induction false} DeleteDistinct(d: Dict, k: string)
    requires Distinct(d)
    ensures Distinct(Delete(d, k))
  {
    if d != [] {
      DeleteDistinct(d[1..], k);
      if d[0].0 != k {
        var s := Delete(d, k);
        DeleteKeys(d[1..], k);
        KeySetCons(d);
        forall i, j | 0 <= i < j < |s| ensures s[i].0 != s[j].0 {
          if i == 0 {
            assert s[j] == Delete(d[1..], k)[j - 1];
            assert s[j].0 in KeySet(Delete(d[1..], k));
          }
        }
      }
    }
  }

  lemma {:induction false} DeleteAbsent(d: Dict, k: string)
    requires k !in KeySet(d)
    ensures Delete(d, k) == d
  {
    if d != [] {
      KeySetCons(d);
      DeleteAbsent(d[1..], k);
    }
  }

  lemma {:induction false} DeleteSetSame(d: Dict, k: string, v: Value)
    ensures Delete(Set(d, k, v), k) == Delete(d, k)
  {
    if d != [] && d[0].0 != k {
      DeleteSetSame(d[1..], k, v);
    }
  }

  lemma {:induction false} DeleteSetOther(d: Dict, k: string, j: string, v: Value)
    requires j != k
    ensures Delete(Set(d, j, v), k) == Set(Delete(d, k), j, v)
  {
    if d != [] {
      DeleteSetOther(d[1..], k, j, v);
    }
  }

  /** Whatever a dict held under `k` before an update, it is gone once `k` is
      deleted after the update. */
  lemma {:induction false} DeleteUpdateCongruence(d1: Dict, d2: Dict, e: Dict, k: string)
    requires Delete(d1, k) == Delete(d2, k)
    ensures Delete(Update(d1, e), k) == Delete(Update(d2, e), k)
    decreases |e|
  {
    if e != [] {
      var (j, v) := e[0];
      if j == k {
        DeleteSetSame(d1, k, v);
        DeleteSetSame(d2, k, v);
      } else {
        DeleteSetOther(d1, k, j, v);
        DeleteSetOther(d2, k, j, v);
      }
      DeleteUpdateCongruence(Set(d1, j, v), Set(d2, j, v), e[1..], k);
    }
  }

  lemma {:induction false} LookupLastIn(e: Dict, k: string)
    requires LookupLast(e, k).Some?
    ensures exists i :: 0 <= i < |e| && e[i] == (k, LookupLast(e, k).value)
  {
    if LookupLast(e[1..], k).Some? {
      LookupLastIn(e[1..], k);
      var i :| 0 <= i < |e[1..]| && e[1..][i] == (k, LookupLast(e, k).value);
      assert e[i + 1] == e[1..][i];
    } else {
      assert e[0] == (k, LookupLast(e, k).value);
    }
  }
}
