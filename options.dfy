/** The optional value used wherever the script works with `None` or a
    missing cell, and the list of the present values of a sequence. */
module Options {
  datatype Option<+T> = None | Some(value: T)

  /** The present values, in order: a loop that appends `x` for every `Some(x)`. */
  function Kept<T>(rs: seq<Option<T>>): (xs: seq<T>)
    ensures |xs| <= |rs|
  {
    if rs == [] then []
    else
      var r := rs[|rs| - 1];
      Kept(rs[..|rs| - 1]) + (if r.Some? then [r.value] else [])
  }

  /** `idx` lists, in increasing order, the positions the kept values come
      from, and every position it does not list holds `None`. */
  ghost predicate Selects<T>(rs: seq<Option<T>>, xs: seq<T>, idx: seq<nat>) {
    |idx| == |xs| &&
    (forall k :: 0 <= k < |idx| ==> idx[k] < |rs| && rs[idx[k]] == Some(xs[k])) &&
    (forall k, l :: 0 <= k < l < |idx| ==> idx[k] < idx[l]) &&
    (forall i :: 0 <= i < |rs| && i !in idx ==> rs[i].None?)
  }

  /** The kept values are an order-preserving selection of the sequence. */
  lemma {:induction false} KeptSelects<T>(rs: seq<Option<T>>)
    ensures exists idx :: Selects(rs, Kept(rs), idx)
  {
    if rs == [] {
      var none: seq<nat> := [];
      assert Kept(rs) == [];
      assert Selects(rs, Kept(rs), none);
    } else {
      var init := rs[..|rs| - 1];
      KeptSelects(init);
      var idx :| Selects(init, Kept(init), idx);
      var idx' := SelectsSnoc(init, Kept(init), idx, rs[|rs| - 1]);
      assert init + [rs[|rs| - 1]] == rs;
      assert Selects(rs, Kept(rs), idx');
    }
  }

  /** Extending a selection by one more position. */
  lemma SelectsSnoc<T>(rs: seq<Option<T>>, xs: seq<T>, idx: seq<nat>, r: Option<T>)
      returns (idx': seq<nat>)
    requires Selects(rs, xs, idx)
    ensures Selects(rs + [r], xs + (if r.Some? then [r.value] else []), idx')
  {
    var n := |rs|;
    var rs' := rs + [r];
    assert forall i :: 0 <= i < n ==> rs'[i] == rs[i];
    if r.Some? {
      idx' := idx + [n];
      assert forall k :: 0 <= k < |idx| ==> idx'[k] == idx[k];
      assert forall i :: 0 <= i < n && i !in idx' ==> i !in idx;
    } else {
      idx' := idx;
      assert xs + [] == xs;
    }
  }

  /** Every kept value is present somewhere in the sequence. */
  lemma {:induction false} KeptFrom<T>(rs: seq<Option<T>>, x: T)
    requires x in Kept(rs)
    ensures exists i :: 0 <= i < |rs| && rs[i] == Some(x)
  {
    var init := rs[..|rs| - 1];
    if x in Kept(init) {
      KeptFrom(init, x);
      var i :| 0 <= i < |init| && init[i] == Some(x);
      assert rs[i] == init[i];
    } else {
      assert rs[|rs| - 1] == Some(x);
    }
  }

  /** Keeping distributes over concatenation. */
  lemma {:induction false} KeptAppend<T>(a: seq<Option<T>>, b: seq<Option<T>>)
    ensures Kept(a + b) == Kept(a) + Kept(b)
    decreases |b|
  {
    if b == [] {
      assert a + b == a;
    } else {
      var b' := b[..|b| - 1];
      assert (a + b)[..|a + b| - 1] == a + b';
      assert (a + b)[|a + b| - 1] == b[|b| - 1];
      KeptAppend(a, b');
    }
  }
}
