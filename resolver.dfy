/** `BaseTaskSet.unpack_values`: replaces every callable reached through dict
    values by what it returns, and splices the mapping held under the reserved
    key `__compile__` into the enclosing dict. */
module Resolver {
  import opened Values

  /** The reserved merge-in key. */
  const Compile: string := "__compile__"

  /** `unpack_values(payload)`, as a function. A dict is processed entry by
      entry over a snapshot of itself; a callable is called and its result is
      returned as it is; anything else (lists and tuples included) is returned
      unchanged. */
  function Resolve(v: Value): (r: Result<Value>)
    ensures r.Ok? && v.Map? ==> r.value.Map?
    decreases v, 1
  {
    match v
    case Map(es) =>
      var d :- Walk(es, es);
      Ok(Map(d))
    case Thunk(x) => Ok(x)
    case _ => Ok(v)
  }

  /** The loop over the snapshot: `acc` is the dict being rewritten in place,
      `snapshot` the entries not yet visited. */
  function Walk(snapshot: Dict, acc: Dict): Result<Dict>
    decreases snapshot, 0
  {
    if snapshot == [] then Ok(acc)
    else
      assert snapshot[0].1 < snapshot[0];
      var (k, x) := snapshot[0];
      var rx :- Resolve(x);
      if k == Compile then
        if rx.Map? then Walk(snapshot[1..], Delete(Update(acc, rx.entries), Compile))
        else Err(InvalidMergeTarget)
      else Walk(snapshot[1..], Set(acc, k, rx))
  }

  /** Reference definition: the writes the snapshot performs, in order. An
      ordinary entry writes its resolved value under its own key; the
      `__compile__` entry writes every entry of the mapping it resolves to. */
  function Writes(s: Dict): Result<Dict>
    decreases s, 0
  {
    if s == [] then Ok([])
    else
      assert s[0].1 < s[0];
      var rx :- Resolve(s[0].1);
      if s[0].0 == Compile then
        if rx.Map? then
          var rest :- Writes(s[1..]);
          Ok(rx.entries + rest)
        else Err(InvalidMergeTarget)
      else
        var rest :- Writes(s[1..]);
        Ok([(s[0].0, rx)] + rest)
  }

  /** The entries spliced in by `__compile__` entries of `s`. */
  function Splices(s: Dict): Dict {
    if s == [] then []
    else if s[0].0 == Compile && Resolve(s[0].1).Ok? && Resolve(s[0].1).value.Map? then
      Resolve(s[0].1).value.entries + Splices(s[1..])
    else Splices(s[1..])
  }

  /** What the resolver leaves behind: no callable and no `__compile__` key
      reachable through dict values. Lists and tuples are not looked into. */
  predicate Resolved(v: Value) {
    match v
    case Map(es) => Compile !in KeySet(es) && forall i :: 0 <= i < |es| ==> Resolved(es[i].1)
    case Thunk(_) => false
    case _ => true
  }

  /** Every callable reached through dict values returns a resolved value. */
  predicate ThunksYieldResolved(v: Value) {
    match v
    case Map(es) => forall i :: 0 <= i < |es| ==> ThunksYieldResolved(es[i].1)
    case Thunk(x) => Resolved(x)
    case _ => true
  }

  /** `unpack_values(payload)` as the source runs it: a loop over a snapshot
      of the dict that rewrites the dict in place. */
  method UnpackValues(v: Value) returns (r: Result<Value>)
    ensures r == Resolve(v)
    decreases v
  {
    match v {
      case Map(es) =>
        var payload := es;
        var snapshot := es;
        var i := 0;
        while i < |snapshot|
          invariant 0 <= i <= |snapshot|
          invariant Walk(snapshot[i..], payload) == Walk(snapshot, es)
        {
          assert snapshot[i..][1..] == snapshot[i + 1..];
          assert snapshot[i].1 < snapshot[i];
          var (key, val) := snapshot[i];
          var x := UnpackValues(val);
          if x.Err? {
            return Err(x.error);
          }
          if key == Compile {
            if !x.value.Map? {
              return Err(InvalidMergeTarget);
            }
            payload := Update(payload, x.value.entries);
            payload := Delete(payload, Compile);
          } else {
            payload := Set(payload, key, x.value);
          }
          i := i + 1;
        }
        return Ok(Map(payload));
      case Thunk(x) =>
        return Ok(x);
      case _ =>
        return Ok(v);
    }
  }

  // ---------------------------------------------------------------------
  // The resolved dict is the original one updated with the writes, in
  // snapshot order, without `__compile__`.

  lemma {:induction false} WalkSpec(s: Dict, acc: Dict)
    requires Compile in KeySet(acc) ==> Compile in KeySet(s)
    ensures Walk(s, acc) ==
      if Writes(s).Ok? then Ok(Delete(Update(acc, Writes(s).value), Compile))
      else Err(Writes(s).error)
  {
    if s == [] {
      DeleteAbsent(acc, Compile);
    } else {
      var (k, x) := s[0];
      KeySetCons(s);
      var rx := Resolve(x);
      if rx.Ok? {
        if k == Compile {
          if rx.value.Map? {
            var m := rx.value.entries;
            var acc' := Delete(Update(acc, m), Compile);
            DeleteKeys(Update(acc, m), Compile);
            WalkSpec(s[1..], acc');
            if Writes(s[1..]).Ok? {
              var w' := Writes(s[1..]).value;
              UpdateAppend(acc, m, w');
              DeleteKeys(Update(acc, m), Compile);
              DeleteAbsent(acc', Compile);
              DeleteUpdateCongruence(acc', Update(acc, m), w', Compile);
            }
          }
        } else {
          var acc' := Set(acc, k, rx.value);
          SetKeys(acc, k, rx.value);
          WalkSpec(s[1..], acc');
          if Writes(s[1..]).Ok? {
            var w := [(k, rx.value)] + Writes(s[1..]).value;
            assert w[0] == (k, rx.value) && w[1..] == Writes(s[1..]).value;
          }
        }
      }
    }
  }

  /** Resolving a dict gives the dict updated with the writes of its own
      snapshot, in order, with `__compile__` removed; it fails exactly when the
      writes fail, with the same error. */
  lemma ResolveMapSpec(es: Dict)
    ensures Resolve(Map(es)) ==
      if Writes(es).Ok? then Ok(Map(Delete(Update(es, Writes(es).value), Compile)))
      else Err(Writes(es).error)
  {
    WalkSpec(es, es);
  }

  /** Each non-reserved key of the snapshot is written, and the writes touch no
      other key than those and the spliced ones. */
  lemma {:induction false} WritesKeys(s: Dict)
    requires Writes(s).Ok?
    ensures KeySet(Writes(s).value) == (KeySet(s) - {Compile}) + KeySet(Splices(s))
  {
    if s != [] {
      KeySetCons(s);
      WritesKeys(s[1..]);
      var w := Writes(s).value;
      var w' := Writes(s[1..]).value;
      if s[0].0 == Compile {
        var m := Resolve(s[0].1).value.entries;
        assert w == m + w';
        KeySetAppend(m, w');
        KeySetAppend(m, Splices(s[1..]));
      } else {
        assert w == [(s[0].0, Resolve(s[0].1).value)] + w';
        KeySetCons(w);
        assert w[1..] == w';
      }
    }
  }

  lemma {:induction false} KeySetAppend(a: Dict, b: Dict)
    ensures KeySet(a + b) == KeySet(a) + KeySet(b)
  {
    if a != [] {
      KeySetCons(a);
      KeySetCons(a + b);
      assert (a + b)[1..] == a[1..] + b;
      KeySetAppend(a[1..], b);
    } else {
      assert a + b == b;
    }
  }

  /** The keys of a resolved dict: the original keys without `__compile__`,
      plus the keys spliced in from the merge mapping (again without
      `__compile__`). */
  lemma ResolvedKeys(es: Dict)
    requires Resolve(Map(es)).Ok?
    ensures Resolve(Map(es)).value.Map?
    ensures KeySet(Resolve(Map(es)).value.entries) ==
      ((KeySet(es) - {Compile}) + KeySet(Splices(es))) - {Compile}
  {
    ResolveMapSpec(es);
    var w := Writes(es).value;
    WritesKeys(es);
    UpdateKeys(es, w);
    DeleteKeys(Update(es, w), Compile);
  }

  /** A resolved dict never has a `__compile__` key. */
  lemma ResolvedHasNoMergeKey(es: Dict)
    requires Resolve(Map(es)).Ok?
    ensures Resolve(Map(es)).value.Map?
    ensures Compile !in KeySet(Resolve(Map(es)).value.entries)
  {
    ResolvedKeys(es);
  }

  /** Collisions: every key of a resolved dict holds the value of the LAST
      write to it in snapshot order, whether that write came from its own
      entry or from a spliced mapping. */
  lemma ResolvedLookup(es: Dict, j: string)
    requires Resolve(Map(es)).Ok? && j != Compile
    ensures Writes(es).Ok?
    ensures Lookup(Resolve(Map(es)).value.entries, j) == LookupLast(Writes(es).value, j)
  {
    ResolveMapSpec(es);
    var w := Writes(es).value;
    WritesKeys(es);
    DeleteLookup(Update(es, w), Compile, j);
    UpdateLookup(es, w, j);
  }

  /** Resolving keeps the keys of every dict unique. */
  lemma ResolvedDistinct(es: Dict)
    requires Distinct(es) && Resolve(Map(es)).Ok?
    ensures Distinct(Resolve(Map(es)).value.entries)
  {
    ResolveMapSpec(es);
    var w := Writes(es).value;
    UpdateDistinct(es, w);
    DeleteDistinct(Update(es, w), Compile);
  }

  // ---------------------------------------------------------------------
  // Deep properties

  /** When every callable returns a resolved value, the whole result is
      resolved: no callable and no `__compile__` key is left in any dict
      reached through dict values, and keys stay unique. */
  lemma {:induction false} ResolveResolves(v: Value)
    requires DistinctDeep(v) && ThunksYieldResolved(v) && Resolve(v).Ok?
    ensures Resolved(Resolve(v).value) && DistinctDeep(Resolve(v).value)
    decreases v, 1
  {
    match v
    case Map(es) =>
      ResolveMapSpec(es);
      var w := Writes(es).value;
      WritesResolved(es);
      var r := Delete(Update(es, w), Compile);
      ResolvedHasNoMergeKey(es);
      ResolvedDistinct(es);
      forall i | 0 <= i < |r| ensures Resolved(r[i].1) && DistinctDeep(r[i].1) {
        LookupAt(r, i);
        assert r[i].0 in KeySet(r);
        ResolvedLookup(es, r[i].0);
        LookupLastIn(w, r[i].0);
      }
    case Thunk(x) =>
    case _ =>
  }

  lemma {:induction false} WritesResolved(s: Dict)
    requires forall i :: 0 <= i < |s| ==> DistinctDeep(s[i].1) && ThunksYieldResolved(s[i].1)
    requires Writes(s).Ok?
    ensures forall i :: 0 <= i < |Writes(s).value| ==>
      Resolved(Writes(s).value[i].1) && DistinctDeep(Writes(s).value[i].1)
    decreases s, 0
  {
    if s != [] {
      assert s[0].1 < s[0];
      ResolveResolves(s[0].1);
      WritesResolved(s[1..]);
      var w := Writes(s).value;
      var w' := Writes(s[1..]).value;
      var rx := Resolve(s[0].1).value;
      if s[0].0 == Compile {
        assert w == rx.entries + w';
        forall i | 0 <= i < |w| ensures Resolved(w[i].1) && DistinctDeep(w[i].1) {
          if i >= |rx.entries| {
            assert w[i] == w'[i - |rx.entries|];
          }
        }
      } else {
        assert w == [(s[0].0, rx)] + w';
        forall i | 0 <= i < |w| ensures Resolved(w[i].1) && DistinctDeep(w[i].1) {
          if i > 0 {
            assert w[i] == w'[i - 1];
          }
        }
      }
    }
  }

  /** A resolved value is a fixed point of the resolver. */
  lemma {:induction false} ResolveFixpoint(v: Value)
    requires DistinctDeep(v) && Resolved(v)
    ensures Resolve(v) == Ok(v)
    decreases v, 1
  {
    match v
    case Map(es) =>
      WritesFixpoint(es);
      ResolveMapSpec(es);
      UpdateSelf(es);
      DeleteAbsent(es, Compile);
    case _ =>
  }

  lemma {:induction false} WritesFixpoint(s: Dict)
    requires forall i :: 0 <= i < |s| ==> DistinctDeep(s[i].1) && Resolved(s[i].1)
    requires Compile !in KeySet(s)
    ensures Writes(s) == Ok(s)
    decreases s, 0
  {
    if s != [] {
      KeySetCons(s);
      assert s[0].1 < s[0];
      ResolveFixpoint(s[0].1);
      WritesFixpoint(s[1..]);
      assert s == [s[0]] + s[1..];
    }
  }

  /** Resolving twice gives what resolving once gives, provided every
      callable returns a resolved value. */
  lemma ResolveIdempotent(v: Value)
    requires DistinctDeep(v) && ThunksYieldResolved(v) && Resolve(v).Ok?
    ensures Resolve(Resolve(v).value) == Resolve(v)
  {
    ResolveResolves(v);
    ResolveFixpoint(Resolve(v).value);
  }

  // ---------------------------------------------------------------------
  // Concrete cases

  /** A callable's result is used verbatim: a dict it returns is not itself
      resolved, so its own callables stay. */
  lemma ThunkResultNotResolvedFurther()
    ensures Resolve(Map([("x", Thunk(Map([("y", Thunk(Int(2)))])))])) ==
      Ok(Map([("x", Map([("y", Thunk(Int(2)))]))]))
  {
    var inner := Map([("y", Thunk(Int(2)))]);
    var es := [("x", Thunk(inner))];
    assert "x" != Compile;
    assert Set(es, "x", inner) == [("x", inner)];
    assert Walk(es, es) == Walk([], [("x", inner)]);
  }

  /** Lists are returned unchanged, callables inside them included. */
  lemma ListsAreNotTraversed()
    ensures Resolve(Map([("xs", Seq([Thunk(Int(1))]))])) == Ok(Map([("xs", Seq([Thunk(Int(1))]))]))
  {
    var xs := Seq([Thunk(Int(1))]);
    var es := [("xs", xs)];
    assert "xs" != Compile;
    assert Set(es, "xs", xs) == es;
    assert Walk(es, es) == Walk([], es);
  }

  /** Without the hypothesis on callables, a nested `__compile__` key can
      survive: it comes in through a callable's result. */
  lemma NestedMergeKeyFromThunkSurvives()
    ensures Resolve(Map([("x", Thunk(Map([(Compile, Int(1))])))])) ==
      Ok(Map([("x", Map([(Compile, Int(1))]))]))
  {
    var inner := Map([(Compile, Int(1))]);
    var es := [("x", Thunk(inner))];
    assert "x" != Compile;
    assert Set(es, "x", inner) == [("x", inner)];
    assert Walk(es, es) == Walk([], [("x", inner)]);
  }

  /** A sibling after `__compile__` overrides the spliced value; a sibling
      before it is overridden by the spliced value. */
  lemma LaterWriteWins()
    ensures Resolve(Map([(Compile, Map([("a", Int(1))])), ("a", Int(2))])) == Ok(Map([("a", Int(2))]))
    ensures Resolve(Map([("a", Int(2)), (Compile, Map([("a", Int(1))]))])) == Ok(Map([("a", Int(1))]))
  {
    assert "a" != Compile;
    var m := [("a", Int(1))];
    assert Resolve(Map(m)) == Ok(Map(m)) by {
      assert Set(m, "a", Int(1)) == m;
      assert Walk(m, m) == Walk([], m);
    }
    // the merge comes first
    var es1 := [(Compile, Map(m)), ("a", Int(2))];
    assert Set(es1, "a", Int(1)) == [(Compile, Map(m)), ("a", Int(1))];
    assert Update(es1, m) == [(Compile, Map(m)), ("a", Int(1))];
    var acc1 := Delete(Update(es1, m), Compile);
    assert Delete([("a", Int(1))], Compile) == [("a", Int(1))];
    assert acc1 == [("a", Int(1))];
    assert Walk(es1, es1) == Walk(es1[1..], acc1);
    assert Set(acc1, "a", Int(2)) == [("a", Int(2))];
    assert Walk(es1[1..], acc1) == Walk([], [("a", Int(2))]);
    // the merge comes last
    var es2 := [("a", Int(2)), (Compile, Map(m))];
    assert Set(es2, "a", Int(2)) == es2;
    assert Walk(es2, es2) == Walk(es2[1..], es2);
    assert Update(es2, m) == [("a", Int(1)), (Compile, Map(m))];
    assert Delete([(Compile, Map(m))], Compile) == [];
    assert Delete([("a", Int(1)), (Compile, Map(m))], Compile) == [("a", Int(1))];
    assert Walk(es2[1..], es2) == Walk([], [("a", Int(1))]);
  }

  /** A `__compile__` entry, here the first, whose value does not resolve to
      a mapping makes resolution fail, whatever follows it. */
  lemma MergeOfNonMappingFails(x: Value, rest: Dict)
    requires Resolve(x).Ok? && !Resolve(x).value.Map?
    ensures Resolve(Map([(Compile, x)] + rest)) == Err(InvalidMergeTarget)
  {
    var es := [(Compile, x)] + rest;
    assert es[0] == (Compile, x);
    assert Walk(es, es) == Err(InvalidMergeTarget);
  }
}
