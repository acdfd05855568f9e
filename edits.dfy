/** The key edits shared by both PathData versions (SmoothCurve,
    UpdateCurveValues / UpdateEaseValues, UpdateEaseValue / UpdateTiltingValue
    / UpdateNodeTilting, EaseCurveExtremeNodes) and ChangeRotationAtTimestamp.
    Each edit works on a curve or path object in place, through the
    remove-then-add calls the source makes. */
module Edits {
  import opened Timeline
  import opened Curves
  import opened Paths

  // ---------------------------------------------------------------------
  // SmoothCurve

  /** SmoothCurve(curve): SmoothTangents(i, 0) on every key in index order. */
  method SmoothCurve(curve: Curve)
    requires curve.Valid()
    modifies curve
    ensures curve.Valid()
    ensures curve.keys == SmoothAll(curve.ops, old(curve.keys))
  {
    ghost var orig := curve.keys;
    var i := 0;
    while i < curve.Length()
      invariant 0 <= i <= |orig| && curve.Valid()
      invariant curve.keys == SmoothPrefix(curve.ops, orig, i)
    {
      curve.SmoothTangents(i, 0.0);
      i := i + 1;
    }
  }

  // ---------------------------------------------------------------------
  // Replacing one key

  /** Key i is removed and then key k is added in time order. */
  function Replaced(keys: seq<Key>, i: nat, k: Key): seq<Key>
    requires i < |keys|
  {
    Insert(RemoveAt(keys, i), k)
  }

  /** A key removed and added back with its own time lands at its old index,
      so the remove-then-add pair is an update in place. */
  lemma ReplacedInPlace(keys: seq<Key>, i: nat, k: Key)
    requires Sorted(keys) && i < |keys| && k.time == keys[i].time
    ensures Replaced(keys, i, k) == keys[i := k]
    ensures Sorted(keys[i := k])
  {
    ReinsertInPlace(keys, i, k);
    PutSameTime(keys, i, k);
    SortedByTimes(keys, keys[i := k]);
  }

  /** Key i replaced by a key with the same time, then the whole curve
      smoothed: only entry i of the shape changes. */
  lemma ReplacedShape(ops: CurveOps, keys: seq<Key>, i: nat, k: Key)
    requires Sorted(keys) && i < |keys| && k.time == keys[i].time
    ensures var r := SmoothAll(ops, Replaced(keys, i, k));
      Sorted(r) && |r| == |keys| && Shape(r) == Shape(keys)[i := (k.time, k.data.value)]
  {
    ReplacedInPlace(keys, i, k);
    SmoothAllShape(ops, keys[i := k]);
    assert Shape(keys[i := k]) == Shape(keys)[i := (k.time, k.data.value)];
  }

  // ---------------------------------------------------------------------
  // UpdateCurveValues (component) and UpdateEaseValues (older version)

  /** The shape of a curve whose first n keys had delta added to their value. */
  function ShiftedShape(sh: seq<(real, real)>, delta: real, n: nat): (r: seq<(real, real)>)
    ensures |r| == |sh|
    ensures forall j :: 0 <= j < |sh| ==> r[j] == if j < n then (sh[j].0, sh[j].1 + delta) else sh[j]
  {
    seq(|sh|, j requires 0 <= j < |sh| => if j < n then (sh[j].0, sh[j].1 + delta) else sh[j])
  }

  /** Shifting back by -delta undoes a shift by delta. */
  lemma ShiftedShapeInverse(sh: seq<(real, real)>, delta: real, n: nat)
    ensures ShiftedShape(ShiftedShape(sh, delta, n), -delta, n) == sh
  {
    var r := ShiftedShape(ShiftedShape(sh, delta, n), -delta, n);
    forall j | 0 <= j < |sh| ensures r[j] == sh[j] {
      assert ShiftedShape(sh, delta, n)[j] == if j < n then (sh[j].0, sh[j].1 + delta) else sh[j];
    }
  }

  /** One iteration of UpdateCurveValues' loop extends the shifted prefix
      by key i. */
  lemma ShiftStep(ops: CurveOps, prev: seq<Key>, orig: seq<Key>, delta: real, i: nat, k: Key)
    requires Sorted(prev) && i < |prev| == |orig|
    requires Shape(prev) == ShiftedShape(Shape(orig), delta, i)
    requires k.time == prev[i].time && k.data.value == prev[i].data.value + delta
    ensures var r := SmoothAll(ops, Replaced(prev, i, k));
      Sorted(r) && |r| == |orig| && Shape(r) == ShiftedShape(Shape(orig), delta, i + 1)
  {
    var sh := Shape(orig);
    ReplacedShape(ops, prev, i, k);
    assert Shape(prev)[i] == sh[i] == (prev[i].time, prev[i].data.value);
    assert (k.time, k.data.value) == (sh[i].0, sh[i].1 + delta);
    ShiftedShapeStep(sh, Shape(prev), delta, i);
  }

  lemma ShiftedShapeStep(sh: seq<(real, real)>, cur: seq<(real, real)>, delta: real, i: nat)
    requires i < |sh| && cur == ShiftedShape(sh, delta, i)
    ensures cur[i := (sh[i].0, sh[i].1 + delta)] == ShiftedShape(sh, delta, i + 1)
  {
  }

  /** UpdateCurveValues(curve, delta): every key's value raised by delta,
      one key at a time (copy, RemoveKey, AddKey, SmoothCurve). */
  method UpdateCurveValues(curve: Curve, delta: real)
    requires curve.Valid()
    modifies curve
    ensures curve.Valid()
    ensures Shape(curve.keys) == ShiftedShape(Shape(old(curve.keys)), delta, |old(curve.keys)|)
    ensures Times(curve.keys) == Times(old(curve.keys))
  {
    ghost var orig := curve.keys;
    var i := 0;
    while i < curve.Length()
      invariant 0 <= i <= |curve.keys| == |orig| && curve.Valid()
      invariant Shape(curve.keys) == ShiftedShape(Shape(orig), delta, i)
    {
      ghost var prev := curve.keys;
      var keyCopy := curve.keys[i];
      keyCopy := keyCopy.(data := keyCopy.data.(value := keyCopy.data.value + delta));
      curve.RemoveKey(i);
      var _ := curve.AddKey(keyCopy);
      SmoothCurve(curve);
      assert curve.keys == SmoothAll(curve.ops, Replaced(prev, i, keyCopy));
      ShiftStep(curve.ops, prev, orig, delta, i, keyCopy);
      i := i + 1;
    }
    forall j | 0 <= j < |orig| ensures curve.keys[j].time == orig[j].time {
      assert Shape(curve.keys)[j].0 == Shape(orig)[j].0;
    }
  }

  /** UpdateEaseValue / UpdateTiltingValue / UpdateNodeTilting, up to the
      smoothing: key keyIndex gets newValue and keeps its time; every other
      key keeps its time and value. */
  method UpdateKeyValue(curve: Curve, keyIndex: nat, newValue: real)
    requires curve.Valid() && keyIndex < |curve.keys|
    modifies curve
    ensures curve.Valid()
    ensures Shape(curve.keys) == Shape(old(curve.keys))[keyIndex := (old(curve.keys)[keyIndex].time, newValue)]
    ensures Times(curve.keys) == Times(old(curve.keys))
  {
    ghost var prev := curve.keys;
    var keyframeCopy := curve.keys[keyIndex];
    keyframeCopy := keyframeCopy.(data := keyframeCopy.data.(value := newValue));
    curve.RemoveKey(keyIndex);
    var _ := curve.AddKey(keyframeCopy);
    SmoothCurve(curve);
    ReplacedShape(curve.ops, prev, keyIndex, keyframeCopy);
    ValueEditTimes(prev, curve.keys, keyIndex, newValue);
  }

  /** A curve whose shape differs from another's only in one key's value
      has the same key times. */
  lemma ValueEditTimes(keys: seq<Key>, keys': seq<Key>, i: nat, v: real)
    requires i < |keys| && Shape(keys') == Shape(keys)[i := (keys[i].time, v)]
    ensures Times(keys') == Times(keys)
  {
    assert |keys'| == |Shape(keys')| == |keys|;
    forall j | 0 <= j < |keys| ensures keys'[j].time == keys[j].time {
      assert Shape(keys')[j].0 == Shape(keys)[j].0;
    }
  }

  // ---------------------------------------------------------------------
  // EaseCurveExtremeNodes

  /** A keyframe copy with `outTangent = 0`. */
  function ZeroOut(k: Key): Key {
    Timed(k.time, KeyData(k.data.value, k.data.inTangent, 0.0))
  }

  /** A keyframe copy with `inTangent = 0`. */
  function ZeroIn(k: Key): Key {
    Timed(k.time, KeyData(k.data.value, 0.0, k.data.outTangent))
  }

  /** The first key's out-tangent and then the last key's in-tangent set to
      0; nothing else changes. */
  function ExtremesEased(keys: seq<Key>): (r: seq<Key>)
    requires |keys| > 0
    ensures |r| == |keys| && Shape(r) == Shape(keys) && Times(r) == Times(keys)
    ensures r[0].data.outTangent == 0.0 && r[|r| - 1].data.inTangent == 0.0
    ensures |keys| > 1 ==> r[0].data.inTangent == keys[0].data.inTangent
    ensures |keys| > 1 ==> r[|r| - 1].data.outTangent == keys[|keys| - 1].data.outTangent
    ensures forall j :: 0 < j < |keys| - 1 ==> r[j] == keys[j]
  {
    var a := keys[0 := ZeroOut(keys[0])];
    a[|a| - 1 := ZeroIn(a[|a| - 1])]
  }

  /** EaseCurveExtremeNodes(curve). An empty curve has no keys[0]: the
      source fails there. */
  method EaseCurveExtremeNodes(curve: Curve)
    requires curve.Valid() && |curve.keys| > 0
    modifies curve
    ensures curve.Valid()
    ensures curve.keys == ExtremesEased(old(curve.keys))
  {
    var firstKeyCopy := ZeroOut(curve.keys[0]);
    ReplacedInPlace(curve.keys, 0, firstKeyCopy);
    curve.RemoveKey(0);
    var _ := curve.AddKey(firstKeyCopy);

    var lastKeyIndex := curve.Length() - 1;
    var lastKeyCopy := ZeroIn(curve.keys[lastKeyIndex]);
    ReplacedInPlace(curve.keys, lastKeyIndex, lastKeyCopy);
    curve.RemoveKey(lastKeyIndex);
    var _ := curve.AddKey(lastKeyCopy);
  }

  // ---------------------------------------------------------------------
  // ChangeRotationAtTimestamp

  /** The loop of ChangeRotationAtTimestamp after its first n iterations:
      iteration i checks the timestamp snapshot ts[i] against t and, when
      they are FloatsEqual, removes the node that is at index i NOW; the
      flag records whether anything was removed. The loop runs only while
      i is below the current node count. */
  function DropMatches(ts: seq<real>, t: real, rot: seq<Node>, n: nat): (r: (seq<Node>, bool))
    ensures |r.0| <= |rot|
    ensures !r.1 ==> r.0 == rot
  {
    if n == 0 then (rot, false)
    else
      var prev := DropMatches(ts, t, rot, n - 1);
      var i := n - 1;
      if i < |prev.0| && i < |ts| && FloatsEqual(ts[i], t) then (RemoveAt(prev.0, i), true) else prev
  }

  /** ChangeRotationAtTimestamp(t, position) on the rotation nodes: the
      nodes the loop removed, then a node (t, position) added, or no change
      at all when nothing was removed. (SmoothAllNodes changes tangents
      only, which this model does not hold.) */
  function RotationChanged(rot: seq<Node>, t: real, position: Vec3): seq<Node> {
    var d := DropMatches(Times(rot), t, rot, |rot|);
    if d.1 then Insert(d.0, Timed(t, position)) else rot
  }

  /** Once i has reached the node count the loop has ended: later
      iterations change nothing. */
  lemma {:induction false} DropStable(ts: seq<real>, t: real, rot: seq<Node>, n: nat, m: nat)
    requires n <= m && |DropMatches(ts, t, rot, n).0| <= n
    ensures DropMatches(ts, t, rot, m) == DropMatches(ts, t, rot, n)
    decreases m
  {
    if m > n {
      DropStable(ts, t, rot, n, m - 1);
    }
  }

  /** Without a match among the first n snapshot times nothing is removed. */
  lemma {:induction false} DropNone(ts: seq<real>, t: real, rot: seq<Node>, n: nat)
    requires forall j :: 0 <= j < n && j < |ts| ==> !FloatsEqual(ts[j], t)
    ensures DropMatches(ts, t, rot, n) == (rot, false)
  {
    if n > 0 {
      DropNone(ts, t, rot, n - 1);
    }
  }

  /** Something is removed only for a snapshot time within Eps of t. */
  lemma {:induction false} DropWitness(ts: seq<real>, t: real, rot: seq<Node>, n: nat)
    requires DropMatches(ts, t, rot, n).1
    ensures AnyWithin(ts, t)
  {
    var prev := DropMatches(ts, t, rot, n - 1);
    if prev.1 {
      DropWitness(ts, t, rot, n - 1);
    } else {
      assert FloatsEqual(ts[n - 1], t);
    }
  }

  /** A match among the first n snapshot times of a snapshot of rot itself
      sets the flag. */
  lemma {:induction false} DropFinds(rot: seq<Node>, t: real, n: nat)
    requires n <= |rot| && exists j :: 0 <= j < n && FloatsEqual(Times(rot)[j], t)
    ensures DropMatches(Times(rot), t, rot, n).1
  {
    var ts := Times(rot);
    if exists j :: 0 <= j < n - 1 && FloatsEqual(ts[j], t) {
      DropFinds(rot, t, n - 1);
    } else {
      DropNone(ts, t, rot, n - 1);
      assert FloatsEqual(ts[n - 1], t);
    }
  }

  /** The flag is set exactly when some node was within Eps of t. */
  lemma DropFoundIff(rot: seq<Node>, t: real)
    ensures DropMatches(Times(rot), t, rot, |rot|).1 <==> AnyWithin(Times(rot), t)
  {
    if AnyWithin(Times(rot), t) {
      DropFinds(rot, t, |rot|);
    }
    if DropMatches(Times(rot), t, rot, |rot|).1 {
      DropWitness(Times(rot), t, rot, |rot|);
    }
  }

  /** Removing nodes keeps them sorted. */
  lemma {:induction false} DropSorted(ts: seq<real>, t: real, rot: seq<Node>, n: nat)
    requires Sorted(rot)
    ensures Sorted(DropMatches(ts, t, rot, n).0)
  {
    if n > 0 {
      DropSorted(ts, t, rot, n - 1);
      var prev := DropMatches(ts, t, rot, n - 1);
      if n - 1 < |prev.0| {
        RemoveAtSorted(prev.0, n - 1);
      }
    }
  }

  /** After the one matching node j has gone, no later iteration removes
      anything. */
  lemma {:induction false} DropAfterUnique(rot: seq<Node>, t: real, j: nat, n: nat)
    requires j < n <= |rot|
    requires forall k :: 0 <= k < |rot| && k != j ==> !FloatsEqual(rot[k].time, t)
    requires FloatsEqual(rot[j].time, t)
    ensures DropMatches(Times(rot), t, rot, n) == (RemoveAt(rot, j), true)
  {
    var ts := Times(rot);
    if n == j + 1 {
      DropNone(ts, t, rot, j);
    } else {
      DropAfterUnique(rot, t, j, n - 1);
      assert n - 1 != j && ts[n - 1] == rot[n - 1].time;
    }
  }

  /** With no node within Eps of t, nothing changes (and the source raises
      no event). */
  lemma RotationUnchanged(rot: seq<Node>, t: real, position: Vec3)
    requires !AnyWithin(Times(rot), t)
    ensures RotationChanged(rot, t, position) == rot
  {
    DropFoundIff(rot, t);
  }

  /** With exactly one node j within Eps of t, that node is replaced by
      (t, position): the count is kept and the order too. */
  lemma RotationChangedUnique(rot: seq<Node>, t: real, position: Vec3, j: nat)
    requires Sorted(rot) && j < |rot|
    requires FloatsEqual(rot[j].time, t)
    requires forall k :: 0 <= k < |rot| && k != j ==> !FloatsEqual(rot[k].time, t)
    ensures var r := RotationChanged(rot, t, position);
      r == Insert(RemoveAt(rot, j), Timed(t, position)) &&
      |r| == |rot| && Sorted(r) && Timed(t, position) in r
  {
    DropAfterUnique(rot, t, j, |rot|);
    var rest := RemoveAt(rot, j);
    RemoveAtSorted(rot, j);
    assert !HasTime(rest, t) by {
      forall k | 0 <= k < |rest| ensures rest[k].time != t {
        var k' := if k < j then k else k + 1;
        assert rest[k] == rot[k'];
      }
    }
    InsertSorted(rest, Timed(t, position));
    InsertFresh(rest, Timed(t, position));
  }

  /** In general the result stays sorted. */
  lemma RotationChangedSorted(rot: seq<Node>, t: real, position: Vec3)
    requires Sorted(rot)
    ensures Sorted(RotationChanged(rot, t, position))
  {
    DropSorted(Times(rot), t, rot, |rot|);
    InsertSorted(DropMatches(Times(rot), t, rot, |rot|).0, Timed(t, position));
  }

  /** ChangeRotationAtTimestamp(timestamp, newPosition) on the rotation
      path; `found` tells whether the source goes on to raise
      RotationPointPositionChanged. */
  method ChangeRotationAtTimestamp(rot: Path, timestamp: real, newPosition: Vec3) returns (found: bool)
    requires rot.Valid()
    modifies rot
    ensures rot.Valid()
    ensures found <==> AnyWithin(Times(old(rot.nodes)), timestamp)
    ensures rot.nodes == RotationChanged(old(rot.nodes), timestamp, newPosition)
  {
    ghost var orig := rot.nodes;
    var timestamps := rot.GetTimestamps();
    found := false;
    var i := 0;
    while i < rot.KeysNo()
      invariant rot.Valid() && timestamps[..] == Times(orig) && i <= |orig|
      invariant (rot.nodes, found) == DropMatches(Times(orig), timestamp, orig, i)
      decreases |rot.nodes| - i
    {
      if FloatsEqual(timestamps[i], timestamp) {
        rot.RemoveNode(i);
        found := true;
      }
      i := i + 1;
    }
    DropStable(Times(orig), timestamp, orig, i, |orig|);
    DropFoundIff(orig, timestamp);
    if !found {
      return;
    }
    rot.CreateNewNode(timestamp, newPosition);
  }
}
