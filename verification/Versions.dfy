/** Version vectors (internal/version/version.go): device id -> counter, an absent
    device counting as 0. Counters are unsigned 64-bit, so Bump wraps. */
module Versions {

  type U64 = x: int | 0 <= x < 0x1_0000_0000_0000_0000
  const MAX_U64: U64 := 0xFFFF_FFFF_FFFF_FFFF

  type Vector = map<U64, U64>

  datatype Ordering = Less | Equal | Greater | Concurrent

  function Get(v: Vector, device: U64): U64
  {
    if device in v then v[device] else 0
  }

  /** The pointwise order: o has seen everything v has seen. */
  ghost predicate Leq(v: Vector, o: Vector)
  {
    forall d: U64 :: Get(v, d) <= Get(o, d)
  }

  /** What Compare is meant to answer: where v and o stand in the pointwise order. */
  ghost function Compare(v: Vector, o: Vector): Ordering
  {
    if Leq(v, o) then (if Leq(o, v) then Equal else Less)
    else if Leq(o, v) then Greater
    else Concurrent
  }

  /** Vector.Compare: two flags collected over the union of the keys. */
  method CompareKeys(v: Vector, o: Vector) returns (r: Ordering)
    ensures r == Compare(v, o)
  {
    if |v| == 0 && |o| == 0 {
      return Equal;
    }
    var gt, lt := false, false;
    var keys := v.Keys + o.Keys;
    var todo := keys;
    while todo != {}
      invariant todo <= keys
      invariant gt <==> exists d :: d in keys - todo && Get(v, d) > Get(o, d)
      invariant lt <==> exists d :: d in keys - todo && Get(v, d) < Get(o, d)
    {
      var d :| d in todo;
      var a, b := Get(v, d), Get(o, d);
      if a > b { gt := true; }
      if a < b { lt := true; }
      todo := todo - {d};
    }
    assert forall d: U64 :: d !in keys ==> Get(v, d) == 0 && Get(o, d) == 0;
    assert gt <==> !Leq(v, o);
    assert lt <==> !Leq(o, v);
    r := if gt && !lt then Greater else if lt && !gt then Less else if !gt && !lt then Equal else Concurrent;
  }

  /** Element-wise maximum. A key only o knows enters the result when its counter is positive. */
  function Merge(v: Vector, o: Vector): Vector
  {
    map d | d in v.Keys + o.Keys && (d in v || o[d] > 0) :: if Get(o, d) > Get(v, d) then Get(o, d) else Get(v, d)
  }

  /** Vector.Merge: copy the receiver, then raise it key by key. */
  method MergeKeys(v: Vector, o: Vector) returns (out: Vector)
    ensures out == Merge(v, o)
  {
    out := CloneKeys(v);
    var todo := o.Keys;
    while todo != {}
      invariant todo <= o.Keys
      invariant v.Keys <= out.Keys <= v.Keys + o.Keys
      invariant forall d :: d in o.Keys - todo ==> (d in out <==> d in v || o[d] > 0)
      invariant forall d :: d in todo ==> (d in out <==> d in v)
      invariant forall d :: d in out ==>
          out[d] == if d !in todo && Get(o, d) > Get(v, d) then Get(o, d) else Get(v, d)
    {
      var d :| d in todo;
      if o[d] > Get(out, d) {
        out := out[d := o[d]];
      }
      todo := todo - {d};
    }
  }

  /** Vector.Clone: a copy key by key. */
  method CloneKeys(v: Vector) returns (out: Vector)
    ensures out == v
  {
    out := map[];
    var todo := v.Keys;
    while todo != {}
      invariant todo <= v.Keys
      invariant out.Keys == v.Keys - todo
      invariant forall d :: d in out ==> out[d] == v[d]
    {
      var d :| d in todo;
      out := out[d := v[d]];
      todo := todo - {d};
    }
  }

  /** The counter of one device, incremented in uint64 arithmetic. */
  function Bump(v: Vector, device: U64): Vector
  {
    v[device := (Get(v, device) + 1) % 0x1_0000_0000_0000_0000]
  }

  lemma LeqReflexive(v: Vector)
    ensures Leq(v, v)
  {
  }

  lemma LeqTransitive(a: Vector, b: Vector, c: Vector)
    requires Leq(a, b) && Leq(b, c)
    ensures Leq(a, c)
  {
    forall d: U64 ensures Get(a, d) <= Get(c, d) {
      assert Get(a, d) <= Get(b, d) && Get(b, d) <= Get(c, d);
    }
  }

  /** Merge is the least upper bound of the pointwise order. */
  lemma MergeIsLeastUpperBound(v: Vector, o: Vector)
    ensures Leq(v, Merge(v, o)) && Leq(o, Merge(v, o))
    ensures forall u: Vector :: Leq(v, u) && Leq(o, u) ==> Leq(Merge(v, o), u)
  {
    var m := Merge(v, o);
    forall d: U64 ensures Get(v, d) <= Get(m, d) && Get(o, d) <= Get(m, d) {
    }
    forall u: Vector | Leq(v, u) && Leq(o, u) ensures Leq(m, u) {
      forall d: U64 ensures Get(m, d) <= Get(u, d) {
        assert Get(v, d) <= Get(u, d) && Get(o, d) <= Get(u, d);
      }
    }
  }

  /** A bump is strictly above what it started from exactly when the counter is not at
      its 64-bit maximum; at the maximum it wraps to 0 and falls strictly below. */
  lemma BumpIsAbove(v: Vector, device: U64)
    ensures Compare(Bump(v, device), v) == Greater <==> Get(v, device) < MAX_U64
    ensures Get(v, device) == MAX_U64 ==> Compare(Bump(v, device), v) == Less
  {
    var b := Bump(v, device);
    assert forall d: U64 :: d != device ==> Get(b, d) == Get(v, d);
    if Get(v, device) < MAX_U64 {
      assert Get(b, device) == Get(v, device) + 1;
      assert Leq(v, b);
    } else {
      assert Get(b, device) == 0;
      assert Leq(b, v);
    }
  }

  /** Vectors that compare equal stand in the same relation to every third vector. */
  lemma EqualIsCongruent(a: Vector, b: Vector, c: Vector)
    requires Compare(a, b) == Equal
    ensures Compare(a, c) == Compare(b, c)
  {
    if Leq(a, c) { LeqTransitive(b, a, c); }
    if Leq(b, c) { LeqTransitive(a, b, c); }
    if Leq(c, a) { LeqTransitive(c, a, b); }
    if Leq(c, b) { LeqTransitive(c, b, a); }
  }

  /** Joining in either order, with a partner's vector from before or after its own join,
      lands on the same point of the order. */
  lemma MergeIsStable(v: Vector, o: Vector)
    ensures Compare(Merge(v, o), Merge(o, v)) == Equal
    ensures Compare(Merge(v, Merge(o, v)), Merge(v, o)) == Equal
  {
    var m, n := Merge(v, o), Merge(o, v);
    forall d: U64
      ensures Get(m, d) == Get(n, d) == Get(Merge(v, n), d)
    {
    }
  }
}
