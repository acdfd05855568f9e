/** Unity's AnimationCurve, as far as the core uses it: a sorted sequence of
    keys (time, value, inTangent, outTangent). Evaluation and tangent
    smoothing are Unity's own code; they are uninterpreted functions held in
    CurveOps, and every property proved holds for all choices of them. */
module Curves {
  import opened Timeline

  datatype KeyData = KeyData(value: real, inTangent: real, outTangent: real)

  type Key = Timed<KeyData>

  /** Unity's AnimationCurve.Evaluate and the tangent that
      AnimationCurve.SmoothTangents(index, weight) gives a key, both
      uninterpreted. SmoothTangents is assumed to give the key the same in-
      and out-tangent and to change nothing else. */
  datatype CurveOps = CurveOps(
    evaluate: (seq<Key>, real) -> real,
    smoothTangent: (seq<Key>, nat, real) -> real)

  /** A keyframe with the given time and value and zero tangents. */
  function MakeKey(time: real, value: real): Key {
    Timed(time, KeyData(value, 0.0, 0.0))
  }

  /** What a curve looks like apart from its tangents: (time, value) pairs. */
  function Shape(keys: seq<Key>): (r: seq<(real, real)>)
    ensures |r| == |keys|
    ensures forall i :: 0 <= i < |keys| ==> r[i] == (keys[i].time, keys[i].data.value)
  {
    seq(|keys|, i requires 0 <= i < |keys| => (keys[i].time, keys[i].data.value))
  }

  function Values(keys: seq<Key>): (r: seq<real>)
    ensures |r| == |keys|
    ensures forall i :: 0 <= i < |keys| ==> r[i] == keys[i].data.value
  {
    seq(|keys|, i requires 0 <= i < |keys| => keys[i].data.value)
  }

  /** curve.SmoothTangents(i, weight). */
  function SmoothKey(ops: CurveOps, keys: seq<Key>, i: nat, weight: real): seq<Key>
    requires i < |keys|
  {
    var t := ops.smoothTangent(keys, i, weight);
    keys[i := keys[i].(data := keys[i].data.(inTangent := t, outTangent := t))]
  }

  /** The first n iterations of SmoothCurve's loop: keys 0..n-1 smoothed in
      index order, each seeing the tangents its predecessors were given. */
  function SmoothPrefix(ops: CurveOps, keys: seq<Key>, n: nat): (r: seq<Key>)
    requires n <= |keys|
    ensures |r| == |keys|
  {
    if n == 0 then keys else SmoothKey(ops, SmoothPrefix(ops, keys, n - 1), n - 1, 0.0)
  }

  /** Smoothing a prefix changes tangents only, and only in that prefix. */
  lemma {:induction false} SmoothPrefixShape(ops: CurveOps, keys: seq<Key>, n: nat)
    requires n <= |keys|
    ensures Shape(SmoothPrefix(ops, keys, n)) == Shape(keys)
    ensures forall i :: n <= i < |keys| ==> SmoothPrefix(ops, keys, n)[i] == keys[i]
  {
    if n > 0 {
      SmoothPrefixShape(ops, keys, n - 1);
      var prev := SmoothPrefix(ops, keys, n - 1);
      assert Shape(SmoothKey(ops, prev, n - 1, 0.0)) == Shape(prev);
    }
  }

  /** SmoothCurve(curve): every key smoothed with weight 0. */
  function SmoothAll(ops: CurveOps, keys: seq<Key>): (r: seq<Key>)
    ensures |r| == |keys|
  {
    SmoothPrefix(ops, keys, |keys|)
  }

  lemma ShapeTimes(a: seq<Key>, b: seq<Key>)
    requires Shape(a) == Shape(b)
    ensures Times(a) == Times(b) && Values(a) == Values(b)
  {
    assert |a| == |Shape(a)| == |b|;
    forall i | 0 <= i < |a| ensures a[i].time == b[i].time && a[i].data.value == b[i].data.value {
      assert Shape(a)[i] == Shape(b)[i];
    }
  }

  /** Smoothing changes tangents only. */
  lemma SmoothAllShape(ops: CurveOps, keys: seq<Key>)
    ensures Shape(SmoothAll(ops, keys)) == Shape(keys)
    ensures Times(SmoothAll(ops, keys)) == Times(keys)
    ensures Values(SmoothAll(ops, keys)) == Values(keys)
    ensures Sorted(keys) ==> Sorted(SmoothAll(ops, keys))
  {
    SmoothPrefixShape(ops, keys, |keys|);
    ShapeTimes(SmoothAll(ops, keys), keys);
    var r := SmoothAll(ops, keys);
    forall i, j | 0 <= i < j < |r| ensures r[i].time == keys[i].time && r[j].time == keys[j].time {
      assert Times(r)[i] == Times(keys)[i] && Times(r)[j] == Times(keys)[j];
    }
  }

  /** An AnimationCurve. */
  class Curve {
    const ops: CurveOps
    var keys: seq<Key>

    ghost predicate Valid()
      reads this
    {
      Sorted(keys)
    }

    /** A new curve with no keys. */
    constructor (ops: CurveOps)
      ensures Valid() && this.ops == ops && keys == []
    {
      this.ops := ops;
      keys := [];
    }

    function Length(): nat
      reads this
    {
      |keys|
    }

    /** curve.Evaluate(t). */
    function Evaluate(t: real): real
      reads this
    {
      ops.evaluate(keys, t)
    }

    /** curve.AddKey(key): returns the new key's index, or -1 when a key
        already has that time. */
    method AddKey(k: Key) returns (index: int)
      requires Valid()
      modifies this
      ensures Valid()
      ensures keys == Insert(old(keys), k)
      ensures index == if HasTime(old(keys), k.time) then -1 else InsertPos(old(keys), k.time) as int
      ensures index >= 0 ==> 0 <= index < |keys| && keys[index] == k
    {
      InsertSorted(keys, k);
      if HasTime(keys, k.time) {
        index := -1;
      } else {
        InsertFresh(keys, k);
        index := InsertPos(keys, k.time);
        keys := Insert(keys, k);
      }
    }

    /** curve.RemoveKey(index). */
    method RemoveKey(index: nat)
      requires Valid() && index < |keys|
      modifies this
      ensures Valid()
      ensures keys == RemoveAt(old(keys), index)
    {
      RemoveAtSorted(keys, index);
      keys := RemoveAt(keys, index);
    }

    /** curve.MoveKey(index, key) where key is keys[index] with a new time. */
    method MoveKey(index: nat, time: real)
      requires Valid() && index < |keys|
      modifies this
      ensures Valid()
      ensures keys == MoveTo(old(keys), index, time)
    {
      MoveToSorted(keys, index, time);
      keys := MoveTo(keys, index, time);
    }

    /** curve.SmoothTangents(index, weight). */
    method SmoothTangents(index: nat, weight: real)
      requires Valid() && index < |keys|
      modifies this
      ensures Valid()
      ensures keys == SmoothKey(ops, old(keys), index, weight)
    {
      var t := ops.smoothTangent(keys, index, weight);
      keys := keys[index := keys[index].(data := keys[index].data.(inTangent := t, outTangent := t))];
      assert forall i :: 0 <= i < |keys| ==> keys[i].time == old(keys)[i].time;
    }

    /** Returns a fresh array of all key times. */
    method GetKeyTimes() returns (r: array<real>)
      ensures fresh(r) && r[..] == Times(keys)
    {
      r := new real[|keys|];
      var i := 0;
      while i < |keys|
        invariant 0 <= i <= |keys|
        invariant forall j :: 0 <= j < i ==> r[j] == keys[j].time
      {
        r[i] := keys[i].time;
        i := i + 1;
      }
    }
  }
}
