/**
 * The two loop shapes the pipeline uses over a list of JSON items, with
 * Python's left-to-right evaluation: the first item whose step raises aborts
 * the whole loop with that exception.
 *
 *  - Collect: the filtering loop / comprehension `[g(x) for x in s if p(x)]`
 *    (and the `for ... continue ... append` loop): each step keeps one value
 *    or none.
 *  - MapAll: the loop that appends exactly one value per item.
 *
 * Both recurse on the prefix, so that a loop over `s[..i]` is the spec of
 * the first `i` iterations.
 */
module Comprehension {
  import opened PyJson

  function Collect<T, U>(s: seq<T>, f: T -> Result<Option<U>>): Result<seq<U>>
    decreases |s|
  {
    if |s| == 0 then Ok([])
    else
      var kept :- Collect(s[..|s| - 1], f);
      var step :- f(s[|s| - 1]);
      Ok(if step.Some? then kept + [step.value] else kept)
  }

  predicate Keeps<T, U>(f: T -> Result<Option<U>>, x: T) {
    f(x).Ok? && f(x).value.Some?
  }

  /** The positions of the items a collecting loop keeps, in increasing order. */
  function Kept<T, U>(s: seq<T>, f: T -> Result<Option<U>>): (idx: seq<nat>)
    ensures |idx| <= |s|
    ensures forall i :: 0 <= i < |idx| ==> idx[i] < |s|
    ensures forall i, k :: 0 <= i < k < |idx| ==> idx[i] < idx[k]
    ensures forall j :: 0 <= j < |s| ==> (j in idx <==> Keeps(f, s[j]))
    decreases |s|
  {
    if |s| == 0 then []
    else
      var p := s[..|s| - 1];
      var prior := Kept(p, f);
      assert forall j :: 0 <= j < |p| ==> p[j] == s[j];
      prior + (if Keeps(f, s[|s| - 1]) then [|s| - 1] else [])
  }

  /** A collecting loop that finishes keeps exactly the kept items' values, in order. */
  lemma {:induction false} CollectKeeps<T, U>(s: seq<T>, f: T -> Result<Option<U>>)
    requires Collect(s, f).Ok?
    ensures forall j :: 0 <= j < |s| ==> f(s[j]).Ok?
    ensures |Collect(s, f).value| == |Kept(s, f)|
    ensures forall i :: 0 <= i < |Kept(s, f)| ==> f(s[Kept(s, f)[i]]) == Ok(Some(Collect(s, f).value[i]))
    decreases |s|
  {
    if |s| > 0 {
      var p := s[..|s| - 1];
      CollectKeeps(p, f);
      CollectLast(s, f);
      assert forall j :: 0 <= j < |p| ==> p[j] == s[j];
    }
  }

  /** How the last item extends the collected values and the kept positions of the prefix. */
  lemma CollectLast<T, U>(s: seq<T>, f: T -> Result<Option<U>>)
    requires |s| > 0 && Collect(s, f).Ok?
    ensures Collect(s[..|s| - 1], f).Ok? && f(s[|s| - 1]).Ok?
    ensures Keeps(f, s[|s| - 1]) ==>
      Collect(s, f).value == Collect(s[..|s| - 1], f).value + [f(s[|s| - 1]).value.value] &&
      Kept(s, f) == Kept(s[..|s| - 1], f) + [|s| - 1]
    ensures !Keeps(f, s[|s| - 1]) ==>
      Collect(s, f).value == Collect(s[..|s| - 1], f).value &&
      Kept(s, f) == Kept(s[..|s| - 1], f)
  {
  }

  /** A value is collected exactly when some item's step keeps it. */
  lemma CollectMembership<T, U>(s: seq<T>, f: T -> Result<Option<U>>, v: U)
    requires Collect(s, f).Ok?
    ensures v in Collect(s, f).value <==> exists k :: 0 <= k < |s| && f(s[k]) == Ok(Some(v))
  {
    CollectKeeps(s, f);
    var out, idx := Collect(s, f).value, Kept(s, f);
    if v in out {
      var i :| 0 <= i < |out| && out[i] == v;
      assert f(s[idx[i]]) == Ok(Some(v));
    }
    if exists k :: 0 <= k < |s| && f(s[k]) == Ok(Some(v)) {
      var k :| 0 <= k < |s| && f(s[k]) == Ok(Some(v));
      assert Keeps(f, s[k]);
      assert k in idx;
      var i :| 0 <= i < |idx| && idx[i] == k;
      assert out[i] == v;
    }
  }

  /** A collecting loop raises exactly when some step raises, and then with the first such step's exception. */
  lemma {:induction false} CollectRaises<T, U>(s: seq<T>, f: T -> Result<Option<U>>)
    ensures Collect(s, f).Err? <==> exists j :: 0 <= j < |s| && f(s[j]).Err?
    ensures Collect(s, f).Err? ==>
      exists j :: 0 <= j < |s| && f(s[j]) == Err(Collect(s, f).error) && forall k :: 0 <= k < j ==> f(s[k]).Ok?
    decreases |s|
  {
    if |s| > 0 {
      var p := s[..|s| - 1];
      CollectRaises(p, f);
      assert forall j :: 0 <= j < |p| ==> p[j] == s[j];
      if Collect(p, f).Ok? {
        CollectKeeps(p, f);
      }
    }
  }

  /** Once a prefix of the loop has raised, the rest of the loop does not run. */
  lemma {:induction false} CollectStopsAt<T, U>(s: seq<T>, f: T -> Result<Option<U>>, k: nat)
    requires k <= |s|
    requires Collect(s[..k], f).Err?
    ensures Collect(s, f) == Collect(s[..k], f)
    decreases |s|
  {
    if k < |s| {
      var p := s[..|s| - 1];
      assert p[..k] == s[..k];
      CollectStopsAt(p, f, k);
    } else {
      assert s[..k] == s;
    }
  }

  /** The step that extends a finished prefix by one item. */
  lemma CollectStep<T, U>(s: seq<T>, f: T -> Result<Option<U>>, i: nat)
    requires i < |s|
    ensures Collect(s[..i + 1], f) ==
      match Collect(s[..i], f)
      case Err(e) => Err(e)
      case Ok(kept) =>
        match f(s[i])
        case Err(e) => Err(e)
        case Ok(step) => Ok(if step.Some? then kept + [step.value] else kept)
  {
    assert s[..i + 1][..i] == s[..i];
  }

  /** An item whose step keeps nothing can be inserted anywhere without changing the outcome. */
  lemma {:induction false} CollectSkips<T, U>(a: seq<T>, x: T, b: seq<T>, f: T -> Result<Option<U>>)
    requires f(x) == Ok(None)
    ensures Collect(a + [x] + b, f) == Collect(a + b, f)
    decreases |b|
  {
    if |b| == 0 {
      assert a + [x] + b == a + [x];
      assert (a + [x])[..|a|] == a;
      assert a + b == a;
    } else {
      var b' := b[..|b| - 1];
      CollectSkips(a, x, b', f);
      assert (a + [x] + b)[..|a + [x] + b| - 1] == a + [x] + b';
      assert (a + b)[..|a + b| - 1] == a + b';
    }
  }

  function MapAll<T, U>(s: seq<T>, f: T -> Result<U>): Result<seq<U>>
    decreases |s|
  {
    if |s| == 0 then Ok([])
    else
      var prior :- MapAll(s[..|s| - 1], f);
      var y :- f(s[|s| - 1]);
      Ok(prior + [y])
  }

  /** A mapping loop that finishes yields one value per item, in item order. */
  lemma {:induction false} MapAllPointwise<T, U>(s: seq<T>, f: T -> Result<U>)
    requires MapAll(s, f).Ok?
    ensures |MapAll(s, f).value| == |s|
    ensures forall i :: 0 <= i < |s| ==> f(s[i]) == Ok(MapAll(s, f).value[i])
    decreases |s|
  {
    if |s| > 0 {
      var p := s[..|s| - 1];
      MapAllPointwise(p, f);
      assert forall j :: 0 <= j < |p| ==> p[j] == s[j];
    }
  }

  /** A mapping loop finishes exactly when no step raises. */
  lemma {:induction false} MapAllFinishes<T, U>(s: seq<T>, f: T -> Result<U>)
    ensures MapAll(s, f).Ok? <==> forall i :: 0 <= i < |s| ==> f(s[i]).Ok?
    decreases |s|
  {
    if |s| > 0 {
      var p := s[..|s| - 1];
      MapAllFinishes(p, f);
      assert forall j :: 0 <= j < |p| ==> p[j] == s[j];
    }
  }

  lemma {:induction false} MapAllStopsAt<T, U>(s: seq<T>, f: T -> Result<U>, k: nat)
    requires k <= |s|
    requires MapAll(s[..k], f).Err?
    ensures MapAll(s, f) == MapAll(s[..k], f)
    decreases |s|
  {
    if k < |s| {
      var p := s[..|s| - 1];
      assert p[..k] == s[..k];
      MapAllStopsAt(p, f, k);
    } else {
      assert s[..k] == s;
    }
  }

  lemma MapAllStep<T, U>(s: seq<T>, f: T -> Result<U>, i: nat)
    requires i < |s|
    ensures MapAll(s[..i + 1], f) ==
      match MapAll(s[..i], f)
      case Err(e) => Err(e)
      case Ok(prior) =>
        match f(s[i])
        case Err(e) => Err(e)
        case Ok(y) => Ok(prior + [y])
  {
    assert s[..i + 1][..i] == s[..i];
  }
}
