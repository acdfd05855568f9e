/** The three passes that retime existing entries in index order:
    UpdateCurveTimestamps (ease and tilting curves), UpdateRotationPathTimestamps
    and DistributeTimestamps. Each visits the interior indices 1 .. n-2 only
    and moves an entry with MoveKey / ChangeNodeTimestamp, so the first and
    last entries are never retimed. */
module Retiming {
  import opened Timeline
  import opened Curves
  import opened Paths
  import opened Loops

  /** How UpdateCurveTimestamps decides that key i is out of step with node
      i: the component version uses !FloatsEqual (a difference of Eps or
      more), the older version a difference strictly greater than Eps. */
  datatype MismatchTest = NotFloatsEqual | ExceedsEps

  predicate Mismatch(test: MismatchTest, a: real, b: real) {
    match test
    case NotFloatsEqual => !FloatsEqual(a, b)
    case ExceedsEps => a - b > Eps || b - a > Eps
  }

  lemma MismatchTests(a: real, b: real)
    ensures Mismatch(ExceedsEps, a, b) ==> Mismatch(NotFloatsEqual, a, b)
    ensures Mismatch(NotFloatsEqual, a, b) && !Mismatch(ExceedsEps, a, b) <==> (a - b == Eps || b - a == Eps)
  {
  }

  lemma RetargetBoth<V>(s: seq<Timed<V>>, nt: seq<real>, i: nat)
    requires |nt| == |s| && i + 1 >= |s|
    requires |s| > 0 ==> nt[|s| - 1] == s[|s| - 1].time
    ensures Retarget(s, nt, i) == Retarget(s, nt, |s|)
  {
    if i <= |s| {
      RetargetSame(s, nt, |s|, i);
    } else {
      RetargetSame(s, nt, i, |s|);
    }
  }

  lemma RetargetOne<V>(s: seq<Timed<V>>, nt: seq<real>)
    requires |nt| == |s| && (|s| > 0 ==> nt[0] == s[0].time)
    ensures Retarget(s, nt, 1) == s
  {
    assert forall j :: 0 <= j < |s| ==> Retarget(s, nt, 1)[j] == s[j];
  }

  // ---------------------------------------------------------------------
  // UpdateCurveTimestamps

  /** One iteration of UpdateCurveTimestamps' loop, at interior index i. The
      test compares node i's time with key i's VALUE, as the code does; a
      key that fails it is moved to node i's time and the curve smoothed. */
  function KeyStep(test: MismatchTest, ops: CurveOps, pathTs: seq<real>, keys: seq<Key>, i: nat): (r: seq<Key>)
    requires i < |keys| && i < |pathTs|
    ensures |r| == |keys|
  {
    if Mismatch(test, pathTs[i], keys[i].data.value) then SmoothAll(ops, MoveTo(keys, i, pathTs[i])) else keys
  }

  /** The loop body as a step of Iterate; the loop never reaches an index
      outside the curve or the node times. */
  function KeyStepper(test: MismatchTest, ops: CurveOps, pathTs: seq<real>): (seq<Key>, nat) -> seq<Key> {
    (s: seq<Key>, i: nat) => if i < |s| && i < |pathTs| then KeyStep(test, ops, pathTs, s, i) else s
  }

  /** UpdateCurveTimestamps(curve); pathTs are the node times. The code
      reads pathTs[i] for every interior key index i. */
  function CurveRetimed(test: MismatchTest, ops: CurveOps, pathTs: seq<real>, keys: seq<Key>): seq<Key>
    requires |keys| <= |pathTs| + 1
  {
    Iterate(KeyStepper(test, ops, pathTs), keys, LoopEnd(|keys|))
  }

  function SameLength<V>(orig: seq<V>): (seq<V>, nat) -> bool {
    (s: seq<V>, i: nat) => |s| == |orig|
  }

  /** Every prefix of the loop keeps the number of keys. */
  lemma KeyStepsLength(test: MismatchTest, ops: CurveOps, pathTs: seq<real>, keys: seq<Key>, n: nat)
    ensures |Iterate(KeyStepper(test, ops, pathTs), keys, n)| == |keys|
  {
    if n >= 1 {
      IterateInvariant(KeyStepper(test, ops, pathTs), SameLength(keys), keys, n, n);
    }
  }

  /** Iteration i of the loop is KeyStep at i. */
  lemma KeyIterateStep(test: MismatchTest, ops: CurveOps, pathTs: seq<real>, keys: seq<Key>, i: nat)
    requires 1 <= i < |keys| && i < |pathTs|
    ensures var prev := Iterate(KeyStepper(test, ops, pathTs), keys, i);
      |prev| == |keys| &&
      Iterate(KeyStepper(test, ops, pathTs), keys, i + 1) == KeyStep(test, ops, pathTs, prev, i)
  {
    KeyStepsLength(test, ops, pathTs, keys, i);
  }

  /** The time each key is meant to end up at: node i's time for an interior
      key whose value fails the test, its own time otherwise. */
  function KeyTargets(test: MismatchTest, pathTs: seq<real>, keys: seq<Key>): (nt: seq<real>)
    requires |keys| <= |pathTs| + 1
    ensures |nt| == |keys|
  {
    seq(|keys|, j requires 0 <= j < |keys| =>
      if 0 < j < |keys| - 1 && Mismatch(test, pathTs[j], keys[j].data.value) then pathTs[j] else keys[j].time)
  }

  lemma ShapeSetTime(a: seq<Key>, b: seq<Key>, i: nat, t: real)
    requires Shape(a) == Shape(b) && i < |a|
    ensures Shape(a[i := a[i].(time := t)]) == Shape(b[i := b[i].(time := t)])
  {
    ShapeTimes(a, b);
    assert Shape(a)[i] == Shape(b)[i];
  }

  lemma KeyStepShape(test: MismatchTest, ops: CurveOps, pathTs: seq<real>, orig: seq<Key>, st: seq<Key>, i: nat)
    requires |orig| <= |pathTs| + 1 && Sorted(orig) && 0 < i < |orig| - 1
    requires NoOvertake(orig, KeyTargets(test, pathTs, orig))
    requires Shape(st) == Shape(Retarget(orig, KeyTargets(test, pathTs, orig), i))
    ensures Shape(KeyStep(test, ops, pathTs, st, i)) == Shape(Retarget(orig, KeyTargets(test, pathTs, orig), i + 1))
  {
    var nt := KeyTargets(test, pathTs, orig);
    var cur := Retarget(orig, nt, i);
    RetargetStep(orig, nt, i);
    ShapeTimes(st, cur);
    assert Sorted(st) by {
      assert forall a :: 0 <= a < |st| ==> st[a].time == Times(cur)[a] == cur[a].time;
    }
    assert st[i].data.value == Shape(cur)[i].1 == orig[i].data.value;
    if Mismatch(test, pathTs[i], st[i].data.value) {
      assert st[i - 1].time == cur[i - 1].time && st[i + 1].time == cur[i + 1].time;
      MoveInPlace(st, i, nt[i]);
      MoveInPlace(cur, i, nt[i]);
      ShapeSetTime(st, cur, i, nt[i]);
      SmoothAllShape(ops, MoveTo(st, i, pathTs[i]));
    } else {
      assert Retarget(orig, nt, i + 1) == cur;
    }
  }

  function ShapeRetargeted(keys: seq<Key>, nt: seq<real>): (seq<Key>, nat) -> bool
    requires |nt| == |keys|
  {
    (s: seq<Key>, i: nat) => Shape(s) == Shape(Retarget(keys, nt, i))
  }

  lemma KeyStepsShape(test: MismatchTest, ops: CurveOps, pathTs: seq<real>, keys: seq<Key>)
    requires |keys| <= |pathTs| + 1 && Sorted(keys)
    requires NoOvertake(keys, KeyTargets(test, pathTs, keys))
    ensures var step := KeyStepper(test, ops, pathTs); var inv := ShapeRetargeted(keys, KeyTargets(test, pathTs, keys));
      forall s, i :: 1 <= i < LoopEnd(|keys|) && inv(s, i) ==> inv(step(s, i), i + 1)
  {
    var step := KeyStepper(test, ops, pathTs);
    var inv := ShapeRetargeted(keys, KeyTargets(test, pathTs, keys));
    forall s, i | 1 <= i < LoopEnd(|keys|) && inv(s, i) ensures inv(step(s, i), i + 1) {
      assert |s| == |Shape(s)| == |keys|;
      KeyStepShape(test, ops, pathTs, keys, s, i);
    }
  }

  /** When no key overtakes a neighbour, UpdateCurveTimestamps gives each
      interior key whose value fails the test the time of the node with the
      same index; every other key keeps its time, and every key its value. */
  lemma CurveRetimedInPlace(test: MismatchTest, ops: CurveOps, pathTs: seq<real>, keys: seq<Key>)
    requires |keys| <= |pathTs| + 1 && Sorted(keys)
    requires NoOvertake(keys, KeyTargets(test, pathTs, keys))
    ensures var r := CurveRetimed(test, ops, pathTs, keys);
      |r| == |keys| &&
      forall j :: 0 <= j < |keys| ==>
        r[j].data.value == keys[j].data.value &&
        r[j].time == if 0 < j < |keys| - 1 && Mismatch(test, pathTs[j], keys[j].data.value) then pathTs[j] else keys[j].time
  {
    var nt := KeyTargets(test, pathTs, keys);
    var n := LoopEnd(|keys|);
    RetargetOne(keys, nt);
    KeyStepsShape(test, ops, pathTs, keys);
    IterateInvariant(KeyStepper(test, ops, pathTs), ShapeRetargeted(keys, nt), keys, n, n);
    RetargetBoth(keys, nt, n);
    var r := CurveRetimed(test, ops, pathTs, keys);
    assert Shape(r) == Shape(Retarget(keys, nt, |keys|));
    forall j | 0 <= j < |keys|
      ensures r[j].data.value == keys[j].data.value && r[j].time == nt[j]
    {
      assert Shape(r)[j] == Shape(Retarget(keys, nt, |keys|))[j];
    }
  }

  /** The (time, value) of the first and the last key. */
  function Ends(keys: seq<Key>): ((real, real), (real, real))
    requires |keys| > 0
  {
    ((keys[0].time, keys[0].data.value), (keys[|keys| - 1].time, keys[|keys| - 1].data.value))
  }

  lemma KeyStepEnds(test: MismatchTest, ops: CurveOps, pathTs: seq<real>, keys: seq<Key>, st: seq<Key>, i: nat)
    requires i < |pathTs| && Sorted(st) && 0 < i < |st| - 1 && |keys| > 0 && Ends(st) == Ends(keys)
    requires keys[0].time <= pathTs[i] <= keys[|keys| - 1].time
    ensures var r := KeyStep(test, ops, pathTs, st, i); Sorted(r) && Ends(r) == Ends(keys)
  {
    if Mismatch(test, pathTs[i], st[i].data.value) {
      var moved := MoveTo(st, i, pathTs[i]);
      MoveKeepsEnds(st, i, pathTs[i]);
      MoveToSorted(st, i, pathTs[i]);
      SmoothAllShape(ops, moved);
      var r := SmoothAll(ops, moved);
      assert Shape(r)[0] == Shape(moved)[0];
      assert Shape(r)[|st| - 1] == Shape(moved)[|st| - 1];
    }
  }

  function KeyEndsKept(keys: seq<Key>): (seq<Key>, nat) -> bool
    requires |keys| > 0
  {
    (s: seq<Key>, i: nat) => |s| == |keys| && Sorted(s) && Ends(s) == Ends(keys)
  }

  lemma KeyStepsEnds(test: MismatchTest, ops: CurveOps, pathTs: seq<real>, keys: seq<Key>)
    requires |keys| <= |pathTs| + 1 && |keys| >= 2
    requires forall j :: 0 < j < |keys| - 1 ==> keys[0].time <= pathTs[j] <= keys[|keys| - 1].time
    ensures var step := KeyStepper(test, ops, pathTs); var inv := KeyEndsKept(keys);
      forall s, i :: 1 <= i < LoopEnd(|keys|) && inv(s, i) ==> inv(step(s, i), i + 1)
  {
    var step := KeyStepper(test, ops, pathTs);
    var inv := KeyEndsKept(keys);
    forall s, i | 1 <= i < LoopEnd(|keys|) && inv(s, i) ensures inv(step(s, i), i + 1) {
      KeyStepEnds(test, ops, pathTs, keys, s, i);
    }
  }

  /** Whatever the order of the keys afterwards, the first and last key
      keep their time and value, provided the node times lie between them
      (as 0 and 1 enclose every normalised timestamp). */
  lemma CurveRetimedKeepsEnds(test: MismatchTest, ops: CurveOps, pathTs: seq<real>, keys: seq<Key>)
    requires |keys| <= |pathTs| + 1 && |keys| >= 2 && Sorted(keys)
    requires forall j :: 0 < j < |keys| - 1 ==> keys[0].time <= pathTs[j] <= keys[|keys| - 1].time
    ensures var r := CurveRetimed(test, ops, pathTs, keys);
      |r| == |keys| && Sorted(r) &&
      r[0].time == keys[0].time && r[0].data.value == keys[0].data.value &&
      r[|r| - 1].time == keys[|keys| - 1].time && r[|r| - 1].data.value == keys[|keys| - 1].data.value
  {
    var n := LoopEnd(|keys|);
    KeyStepsEnds(test, ops, pathTs, keys);
    IterateInvariant(KeyStepper(test, ops, pathTs), KeyEndsKept(keys), keys, n, n);
  }

  /** The test looks at the key's value, not its time: a key whose value
      happens to equal its node's new time is not moved, although the node
      itself has moved. */
  lemma ValueComparedNotTime(test: MismatchTest, ops: CurveOps)
    ensures var keys := [MakeKey(0.0, 0.05), MakeKey(0.3, 0.5), MakeKey(1.0, 0.05)];
      var pathTs := [0.0, 0.5, 1.0];
      CurveRetimed(test, ops, pathTs, keys) == keys && keys[1].time != pathTs[1]
  {
    var keys := [MakeKey(0.0, 0.05), MakeKey(0.3, 0.5), MakeKey(1.0, 0.05)];
    var pathTs := [0.0, 0.5, 1.0];
    assert !Mismatch(test, pathTs[1], keys[1].data.value);
    assert Iterate(KeyStepper(test, ops, pathTs), keys, 2) == KeyStepper(test, ops, pathTs)(keys, 1);
  }

  // ---------------------------------------------------------------------
  // UpdateRotationPathTimestamps

  /** One iteration of UpdateRotationPathTimestamps' loop; rotTs are the
      rotation node times read before the loop began. */
  function NodeStep(nodeTs: seq<real>, rotTs: seq<real>, rot: seq<Node>, i: nat): (r: seq<Node>)
    requires i < |rot| && i < |nodeTs| && i < |rotTs|
    ensures |r| == |rot|
  {
    if !FloatsEqual(nodeTs[i], rotTs[i]) then MoveTo(rot, i, nodeTs[i]) else rot
  }

  function NodeStepper(nodeTs: seq<real>, rotTs: seq<real>): (seq<Node>, nat) -> seq<Node> {
    (s: seq<Node>, i: nat) => if i < |s| && i < |nodeTs| && i < |rotTs| then NodeStep(nodeTs, rotTs, s, i) else s
  }

  /** UpdateRotationPathTimestamps(), with nodeTs the path's node times. */
  function RotationRetimed(nodeTs: seq<real>, rot: seq<Node>): seq<Node>
    requires |rot| <= |nodeTs| + 1
  {
    Iterate(NodeStepper(nodeTs, Times(rot)), rot, LoopEnd(|rot|))
  }

  lemma NodeStepsLength(nodeTs: seq<real>, rotTs: seq<real>, rot: seq<Node>, n: nat)
    ensures |Iterate(NodeStepper(nodeTs, rotTs), rot, n)| == |rot|
  {
    if n >= 1 {
      IterateInvariant(NodeStepper(nodeTs, rotTs), SameLength(rot), rot, n, n);
    }
  }

  /** Iteration i of the loop is NodeStep at i. */
  lemma NodeIterateStep(nodeTs: seq<real>, rotTs: seq<real>, rot: seq<Node>, i: nat)
    requires 1 <= i < |rot| && i < |nodeTs| && i < |rotTs|
    ensures var prev := Iterate(NodeStepper(nodeTs, rotTs), rot, i);
      |prev| == |rot| &&
      Iterate(NodeStepper(nodeTs, rotTs), rot, i + 1) == NodeStep(nodeTs, rotTs, prev, i)
  {
    NodeStepsLength(nodeTs, rotTs, rot, i);
  }

  function NodeTargets(nodeTs: seq<real>, rot: seq<Node>): (nt: seq<real>)
    requires |rot| <= |nodeTs| + 1
    ensures |nt| == |rot|
  {
    seq(|rot|, j requires 0 <= j < |rot| =>
      if 0 < j < |rot| - 1 && !FloatsEqual(nodeTs[j], rot[j].time) then nodeTs[j] else rot[j].time)
  }

  function Retargeted<V(==)>(orig: seq<Timed<V>>, nt: seq<real>): (seq<Timed<V>>, nat) -> bool
    requires |nt| == |orig|
  {
    (s: seq<Timed<V>>, i: nat) => s == Retarget(orig, nt, i)
  }

  lemma NodeStepTarget(nodeTs: seq<real>, orig: seq<Node>, i: nat)
    requires |orig| <= |nodeTs| + 1 && Sorted(orig) && 0 < i < |orig| - 1
    requires NoOvertake(orig, NodeTargets(nodeTs, orig))
    ensures NodeStep(nodeTs, Times(orig), Retarget(orig, NodeTargets(nodeTs, orig), i), i)
      == Retarget(orig, NodeTargets(nodeTs, orig), i + 1)
  {
    var nt := NodeTargets(nodeTs, orig);
    RetargetStep(orig, nt, i);
    if FloatsEqual(nodeTs[i], Times(orig)[i]) {
      assert Retarget(orig, nt, i + 1) == Retarget(orig, nt, i);
    }
  }

  lemma NodeStepsTarget(nodeTs: seq<real>, rot: seq<Node>)
    requires |rot| <= |nodeTs| + 1 && Sorted(rot)
    requires NoOvertake(rot, NodeTargets(nodeTs, rot))
    ensures var step := NodeStepper(nodeTs, Times(rot)); var inv := Retargeted(rot, NodeTargets(nodeTs, rot));
      forall s, i :: 1 <= i < LoopEnd(|rot|) && inv(s, i) ==> inv(step(s, i), i + 1)
  {
    var step := NodeStepper(nodeTs, Times(rot));
    var inv := Retargeted(rot, NodeTargets(nodeTs, rot));
    forall s, i | 1 <= i < LoopEnd(|rot|) && inv(s, i) ensures inv(step(s, i), i + 1) {
      NodeStepTarget(nodeTs, rot, i);
    }
  }

  /** When no rotation node overtakes a neighbour, UpdateRotationPathTimestamps
      gives each interior rotation node that is not within Eps of the node
      with the same index that node's time; positions, the first and last
      rotation node and the nodes already in step are untouched, so
      afterwards every interior rotation node is within Eps of its node. */
  lemma RotationRetimedInPlace(nodeTs: seq<real>, rot: seq<Node>)
    requires |rot| <= |nodeTs| + 1 && Sorted(rot)
    requires NoOvertake(rot, NodeTargets(nodeTs, rot))
    ensures var r := RotationRetimed(nodeTs, rot);
      |r| == |rot| &&
      (forall j :: 0 <= j < |rot| ==> r[j].data == rot[j].data) &&
      (forall j :: 0 <= j < |rot| ==>
        r[j].time == if 0 < j < |rot| - 1 && !FloatsEqual(nodeTs[j], rot[j].time) then nodeTs[j] else rot[j].time) &&
      (forall j :: 0 < j < |rot| - 1 ==> FloatsEqual(r[j].time, nodeTs[j]))
  {
    var nt := NodeTargets(nodeTs, rot);
    var n := LoopEnd(|rot|);
    RetargetOne(rot, nt);
    NodeStepsTarget(nodeTs, rot);
    IterateInvariant(NodeStepper(nodeTs, Times(rot)), Retargeted(rot, nt), rot, n, n);
    RetargetBoth(rot, nt, n);
  }

  lemma NodeStepEnds(nodeTs: seq<real>, rotTs: seq<real>, st: seq<Node>, i: nat)
    requires i < |nodeTs| && i < |rotTs| && Sorted(st) && 0 < i < |st| - 1
    requires st[0].time <= nodeTs[i] <= st[|st| - 1].time
    ensures var r := NodeStep(nodeTs, rotTs, st, i); Sorted(r) && r[0] == st[0] && r[|r| - 1] == st[|st| - 1]
  {
    MoveKeepsEnds(st, i, nodeTs[i]);
    MoveToSorted(st, i, nodeTs[i]);
  }

  function EndsKept<V(==)>(orig: seq<Timed<V>>): (seq<Timed<V>>, nat) -> bool
    requires |orig| > 0
  {
    (s: seq<Timed<V>>, i: nat) => |s| == |orig| && Sorted(s) && s[0] == orig[0] && s[|s| - 1] == orig[|orig| - 1]
  }

  lemma NodeStepsEnds(nodeTs: seq<real>, rot: seq<Node>)
    requires |rot| <= |nodeTs| + 1 && |rot| >= 2
    requires forall j :: 0 < j < |rot| - 1 ==> rot[0].time <= nodeTs[j] <= rot[|rot| - 1].time
    ensures var step := NodeStepper(nodeTs, Times(rot)); var inv := EndsKept(rot);
      forall s, i :: 1 <= i < LoopEnd(|rot|) && inv(s, i) ==> inv(step(s, i), i + 1)
  {
    var step := NodeStepper(nodeTs, Times(rot));
    var inv := EndsKept(rot);
    forall s, i | 1 <= i < LoopEnd(|rot|) && inv(s, i) ensures inv(step(s, i), i + 1) {
      NodeStepEnds(nodeTs, Times(rot), s, i);
    }
  }

  /** The first and last rotation node are never retimed (nor moved out of
      place), provided the node times lie between them. */
  lemma RotationRetimedKeepsEnds(nodeTs: seq<real>, rot: seq<Node>)
    requires |rot| <= |nodeTs| + 1 && |rot| >= 2 && Sorted(rot)
    requires forall j :: 0 < j < |rot| - 1 ==> rot[0].time <= nodeTs[j] <= rot[|rot| - 1].time
    ensures var r := RotationRetimed(nodeTs, rot); |r| == |rot| && Sorted(r) && r[0] == rot[0] && r[|r| - 1] == rot[|rot| - 1]
  {
    var n := LoopEnd(|rot|);
    NodeStepsEnds(nodeTs, rot);
    IterateInvariant(NodeStepper(nodeTs, Times(rot)), EndsKept(rot), rot, n, n);
  }

  // ---------------------------------------------------------------------
  // DistributeTimestamps

  /** The timestamp DistributeTimestamps computes for node i: the lengths of
      sections 0..i-1 (section k joins nodes k and k+1) summed, each scaled
      by 1 / path length. */
  function PrefixStamp(lengths: seq<real>, timeForMeter: real, i: nat): real
    requires i <= |lengths|
  {
    if i == 0 then 0.0 else PrefixStamp(lengths, timeForMeter, i - 1) + lengths[i - 1] * timeForMeter
  }

  /** The loop gets as far as retiming node i: no stamp 1..i exceeded 1. */
  predicate Reached(lengths: seq<real>, timeForMeter: real, i: nat)
    requires i <= |lengths|
  {
    i == 0 || (Reached(lengths, timeForMeter, i - 1) && PrefixStamp(lengths, timeForMeter, i) <= 1.0)
  }

  lemma {:induction false} NotReachedLater(lengths: seq<real>, tfm: real, i: nat, j: nat)
    requires i <= j <= |lengths| && !Reached(lengths, tfm, i)
    ensures !Reached(lengths, tfm, j)
    decreases j - i
  {
    if i < j {
      NotReachedLater(lengths, tfm, i, j - 1);
    }
  }

  /** One iteration of DistributeTimestamps' loop: node i gets its prefix
      stamp unless the loop has already broken off. */
  function DistStep(nodes: seq<Node>, lengths: seq<real>, timeForMeter: real, i: nat): (r: seq<Node>)
    requires 0 < i <= |lengths| && i < |nodes|
    ensures |r| == |nodes|
  {
    if Reached(lengths, timeForMeter, i) then MoveTo(nodes, i, PrefixStamp(lengths, timeForMeter, i)) else nodes
  }

  function DistStepper(lengths: seq<real>, timeForMeter: real): (seq<Node>, nat) -> seq<Node> {
    (s: seq<Node>, i: nat) => if 0 < i <= |lengths| && i < |s| then DistStep(s, lengths, timeForMeter, i) else s
  }

  /** DistributeTimestamps() on nodes with the given section lengths and
      total length. The code divides by the total length unguarded. */
  function Distributed(nodes: seq<Node>, lengths: seq<real>, pathLength: real): seq<Node>
    requires |nodes| <= |lengths| + 1 && pathLength != 0.0
  {
    Iterate(DistStepper(lengths, 1.0 / pathLength), nodes, LoopEnd(|nodes|))
  }

  lemma DistStepsLength(nodes: seq<Node>, lengths: seq<real>, tfm: real, n: nat)
    ensures |Iterate(DistStepper(lengths, tfm), nodes, n)| == |nodes|
  {
    if n >= 1 {
      IterateInvariant(DistStepper(lengths, tfm), SameLength(nodes), nodes, n, n);
    }
  }

  /** The running sum after section i - 1 is node i's prefix stamp, and the
      loop reaches node i exactly when that sum is at most 1. */
  lemma StampStep(lengths: seq<real>, tfm: real, i: nat, prev: real, len: real, interval: real, stamp: real)
    requires 1 <= i <= |lengths| && prev == PrefixStamp(lengths, tfm, i - 1)
    requires Reached(lengths, tfm, i - 1)
    requires len == lengths[i - 1] && interval == len * tfm && stamp == prev + interval
    ensures stamp == PrefixStamp(lengths, tfm, i)
    ensures Reached(lengths, tfm, i) <==> stamp <= 1.0
  {
  }

  /** Iteration i of the loop is DistStep at i. */
  lemma DistIterateStep(nodes: seq<Node>, lengths: seq<real>, tfm: real, i: nat)
    requires 1 <= i < |nodes| && i <= |lengths|
    ensures var prev := Iterate(DistStepper(lengths, tfm), nodes, i);
      |prev| == |nodes| &&
      Iterate(DistStepper(lengths, tfm), nodes, i + 1) == DistStep(prev, lengths, tfm, i)
  {
    DistStepsLength(nodes, lengths, tfm, i);
  }

  /** Once a stamp exceeds 1 the loop breaks: no later iteration changes
      anything. */
  lemma {:induction false} DistributeStops(nodes: seq<Node>, lengths: seq<real>, tfm: real, k: nat, n: nat)
    requires |nodes| <= |lengths| + 1 && 0 < k < n < |nodes|
    requires !Reached(lengths, tfm, k)
    ensures Iterate(DistStepper(lengths, tfm), nodes, n) == Iterate(DistStepper(lengths, tfm), nodes, k)
  {
    NotReachedLater(lengths, tfm, k, n - 1);
    if n - 1 > k {
      DistributeStops(nodes, lengths, tfm, k, n - 1);
    }
  }

  /** Interior nodes the loop reaches get their prefix stamp; the rest keep
      their time. */
  function DistTargets(nodes: seq<Node>, lengths: seq<real>, timeForMeter: real): (nt: seq<real>)
    requires |nodes| <= |lengths| + 1
    ensures |nt| == |nodes|
  {
    seq(|nodes|, j requires 0 <= j < |nodes| => DistTarget(nodes, lengths, timeForMeter, j))
  }

  function DistTarget(nodes: seq<Node>, lengths: seq<real>, timeForMeter: real, j: nat): real
    requires |nodes| <= |lengths| + 1 && j < |nodes|
  {
    if 0 < j < |nodes| - 1 && Reached(lengths, timeForMeter, j) then PrefixStamp(lengths, timeForMeter, j) else nodes[j].time
  }

  lemma DistStepTarget(orig: seq<Node>, lengths: seq<real>, tfm: real, i: nat)
    requires |orig| <= |lengths| + 1 && Sorted(orig) && 0 < i < |orig| - 1
    requires NoOvertake(orig, DistTargets(orig, lengths, tfm))
    ensures DistStep(Retarget(orig, DistTargets(orig, lengths, tfm), i), lengths, tfm, i)
      == Retarget(orig, DistTargets(orig, lengths, tfm), i + 1)
  {
    var nt := DistTargets(orig, lengths, tfm);
    RetargetStep(orig, nt, i);
    if !Reached(lengths, tfm, i) {
      assert Retarget(orig, nt, i + 1) == Retarget(orig, nt, i);
    }
  }

  lemma DistStepsTarget(nodes: seq<Node>, lengths: seq<real>, tfm: real)
    requires |nodes| <= |lengths| + 1 && Sorted(nodes)
    requires NoOvertake(nodes, DistTargets(nodes, lengths, tfm))
    ensures var step := DistStepper(lengths, tfm); var inv := Retargeted(nodes, DistTargets(nodes, lengths, tfm));
      forall s, i :: 1 <= i < LoopEnd(|nodes|) && inv(s, i) ==> inv(step(s, i), i + 1)
  {
    var step := DistStepper(lengths, tfm);
    var inv := Retargeted(nodes, DistTargets(nodes, lengths, tfm));
    forall s, i | 1 <= i < LoopEnd(|nodes|) && inv(s, i) ensures inv(step(s, i), i + 1) {
      DistStepTarget(nodes, lengths, tfm, i);
    }
  }

  /** When no node overtakes a neighbour, DistributeTimestamps gives interior
      node i the prefix stamp of sections 0..i-1 as long as no stamp up to i
      exceeded 1, and leaves the first node, the last node and every node
      from the first stamp above 1 on as they were; positions never change. */
  lemma DistributedInPlace(nodes: seq<Node>, lengths: seq<real>, pathLength: real)
    requires |nodes| <= |lengths| + 1 && pathLength != 0.0 && Sorted(nodes)
    requires NoOvertake(nodes, DistTargets(nodes, lengths, 1.0 / pathLength))
    ensures var r := Distributed(nodes, lengths, pathLength); var tfm := 1.0 / pathLength;
      |r| == |nodes| &&
      (forall j :: 0 <= j < |nodes| ==> r[j].data == nodes[j].data) &&
      (forall j :: 0 <= j < |nodes| ==>
        r[j].time == if 0 < j < |nodes| - 1 && Reached(lengths, tfm, j) then PrefixStamp(lengths, tfm, j) else nodes[j].time)
  {
    var tfm := 1.0 / pathLength;
    var nt := DistTargets(nodes, lengths, tfm);
    var n := LoopEnd(|nodes|);
    RetargetOne(nodes, nt);
    DistStepsTarget(nodes, lengths, tfm);
    IterateInvariant(DistStepper(lengths, tfm), Retargeted(nodes, nt), nodes, n, n);
    RetargetBoth(nodes, nt, n);
  }

  lemma {:induction false} PrefixStampNonNegative(lengths: seq<real>, tfm: real, i: nat)
    requires i <= |lengths| && tfm >= 0.0 && forall k :: 0 <= k < |lengths| ==> lengths[k] >= 0.0
    ensures PrefixStamp(lengths, tfm, i) >= 0.0
  {
    if i > 0 {
      PrefixStampNonNegative(lengths, tfm, i - 1);
      assert lengths[i - 1] * tfm >= 0.0;
    }
  }

  lemma DistStepEnds(st: seq<Node>, lengths: seq<real>, tfm: real, i: nat)
    requires 0 < i <= |lengths| && Sorted(st) && 0 < i < |st| - 1
    requires tfm >= 0.0 && forall k :: 0 <= k < |lengths| ==> lengths[k] >= 0.0
    requires st[0].time <= 0.0 && 1.0 <= st[|st| - 1].time
    ensures var r := DistStep(st, lengths, tfm, i); Sorted(r) && r[0] == st[0] && r[|r| - 1] == st[|st| - 1]
  {
    if Reached(lengths, tfm, i) {
      PrefixStampNonNegative(lengths, tfm, i);
      MoveKeepsEnds(st, i, PrefixStamp(lengths, tfm, i));
      MoveToSorted(st, i, PrefixStamp(lengths, tfm, i));
    }
  }

  lemma DistStepsEnds(nodes: seq<Node>, lengths: seq<real>, tfm: real)
    requires |nodes| <= |lengths| + 1 && |nodes| >= 2
    requires nodes[0].time <= 0.0 && 1.0 <= nodes[|nodes| - 1].time
    requires tfm >= 0.0 && forall k :: 0 <= k < |lengths| ==> lengths[k] >= 0.0
    ensures var step := DistStepper(lengths, tfm); var inv := EndsKept(nodes);
      forall s, i :: 1 <= i < LoopEnd(|nodes|) && inv(s, i) ==> inv(step(s, i), i + 1)
  {
    var step := DistStepper(lengths, tfm);
    var inv := EndsKept(nodes);
    forall s, i | 1 <= i < LoopEnd(|nodes|) && inv(s, i) ensures inv(step(s, i), i + 1) {
      DistStepEnds(s, lengths, tfm, i);
    }
  }

  /** With non-negative section lengths, a positive total length, and end
      nodes at or outside 0 and 1, DistributeTimestamps never changes the
      first or the last node, whatever happens in between. */
  lemma DistributedKeepsEnds(nodes: seq<Node>, lengths: seq<real>, pathLength: real)
    requires |nodes| <= |lengths| + 1 && |nodes| >= 2 && pathLength > 0.0 && Sorted(nodes)
    requires nodes[0].time <= 0.0 && 1.0 <= nodes[|nodes| - 1].time
    requires forall k :: 0 <= k < |lengths| ==> lengths[k] >= 0.0
    ensures var r := Distributed(nodes, lengths, pathLength);
      |r| == |nodes| && Sorted(r) && r[0] == nodes[0] && r[|r| - 1] == nodes[|nodes| - 1]
  {
    var tfm := 1.0 / pathLength;
    var n := LoopEnd(|nodes|);
    DistStepsEnds(nodes, lengths, tfm);
    IterateInvariant(DistStepper(lengths, tfm), EndsKept(nodes), nodes, n, n);
  }
}
