/** What PathData's synchronisation handlers compute, as functions of the
    collections they are given: the handlers that repair the ease curve, the
    tilting curve and the rotation path after nodes of the animated-object
    path were added or removed. The PathData classes run these as loops
    over the live collections and are proved to produce exactly these
    values. */
module Sync {
  import opened Timeline
  import opened Curves
  import opened Paths

  /** Index of the first timestamp in `a` that FloatsEqual matches to
      nothing in `b`, or |a| when every one is matched. */
  function FirstUnmatched(a: seq<real>, b: seq<real>): (r: nat)
    ensures r <= |a|
    ensures forall j :: 0 <= j < r ==> AnyWithin(b, a[j])
    ensures r < |a| ==> !AnyWithin(b, a[r])
  {
    if a == [] || !AnyWithin(b, a[0]) then 0 else 1 + FirstUnmatched(a[1..], b)
  }

  lemma {:induction false} FirstUnmatchedAt(a: seq<real>, b: seq<real>, i: nat)
    requires i <= |a|
    requires forall j :: 0 <= j < i ==> AnyWithin(b, a[j])
    requires i < |a| ==> !AnyWithin(b, a[i])
    ensures FirstUnmatched(a, b) == i
  {
    if i > 0 {
      FirstUnmatchedAt(a[1..], b, i - 1);
    }
  }

  lemma AnyWithinMono(a: seq<real>, b: seq<real>, t: real)
    requires forall u :: u in a ==> u in b
    requires AnyWithin(a, t)
    ensures AnyWithin(b, t)
  {
    var i :| 0 <= i < |a| && FloatsEqual(a[i], t);
    assert a[i] in b;
    var j :| 0 <= j < |b| && b[j] == a[i];
  }

  lemma ShapeSubTimes(a: seq<Key>, b: seq<Key>)
    requires forall x :: x in Shape(a) ==> x in Shape(b)
    ensures forall t :: t in Times(a) ==> t in Times(b)
  {
    forall t | t in Times(a) ensures t in Times(b) {
      var i :| 0 <= i < |a| && Times(a)[i] == t;
      assert Shape(a)[i] in Shape(b);
      var j :| 0 <= j < |b| && Shape(b)[j] == Shape(a)[i];
      assert Times(b)[j] == t;
    }
  }

  lemma SubTimesNodes(a: seq<Node>, b: seq<Node>)
    requires forall x :: x in a ==> x in b
    ensures forall t :: t in Times(a) ==> t in Times(b)
  {
    forall t | t in Times(a) ensures t in Times(b) {
      var i :| 0 <= i < |a| && Times(a)[i] == t;
      assert a[i] in a;
      var j :| 0 <= j < |b| && b[j] == a[i];
      assert Times(b)[j] == t;
    }
  }

  /** No entry within Eps of t means no entry at t. */
  lemma NotWithinNoTime<V>(s: seq<Timed<V>>, t: real)
    requires !AnyWithin(Times(s), t)
    ensures !HasTime(s, t)
  {
    forall i | 0 <= i < |s| ensures s[i].time != t {
      assert !FloatsEqual(Times(s)[i], t);
    }
  }

  lemma TimesInsertFresh<V>(s: seq<Timed<V>>, e: Timed<V>)
    requires !HasTime(s, e.time)
    ensures var p := InsertPos(s, e.time);
      Times(Insert(s, e)) == Times(s)[..p] + [e.time] + Times(s)[p..]
  {
    var p := InsertPos(s, e.time);
    InsertFresh(s, e);
    var r := Times(Insert(s, e));
    var q := Times(s)[..p] + [e.time] + Times(s)[p..];
    assert |r| == |q|;
    forall j | 0 <= j < |r| ensures r[j] == q[j] {
      if j > p {
        assert q[j] == Times(s)[j - 1];
      }
    }
  }

  lemma ShapeInsertFresh(keys: seq<Key>, k: Key)
    requires !HasTime(keys, k.time)
    ensures var p := InsertPos(keys, k.time);
      Shape(Insert(keys, k)) == Shape(keys)[..p] + [(k.time, k.data.value)] + Shape(keys)[p..]
  {
    var p := InsertPos(keys, k.time);
    InsertFresh(keys, k);
    var r := Shape(Insert(keys, k));
    var q := Shape(keys)[..p] + [(k.time, k.data.value)] + Shape(keys)[p..];
    assert |r| == |q|;
    forall j | 0 <= j < |r| ensures r[j] == q[j] {
      if j > p {
        assert q[j] == Shape(keys)[j - 1];
      }
    }
  }

  /** Inserting keeps every (time, value) pair and adds at most the new
      key's. */
  lemma InsertShape(keys: seq<Key>, k: Key)
    ensures forall x :: x in Shape(keys) ==> x in Shape(Insert(keys, k))
    ensures forall x :: x in Shape(Insert(keys, k)) ==> x in Shape(keys) || x == (k.time, k.data.value)
    ensures !HasTime(keys, k.time) ==> (k.time, k.data.value) in Shape(Insert(keys, k))
    ensures k.time in Times(Insert(keys, k))
  {
    if HasTime(keys, k.time) {
      HasTimeIn(keys, k.time);
    } else {
      var p := InsertPos(keys, k.time);
      var sh := Shape(keys);
      ShapeInsertFresh(keys, k);
      TimesInsertFresh(keys, k);
      assert sh == sh[..p] + sh[p..];
      assert Times(keys)[..p] + [k.time] + Times(keys)[p..] == Times(Insert(keys, k));
    }
  }

  lemma InsertNodes(nodes: seq<Node>, n: Node)
    ensures forall x :: x in nodes ==> x in Insert(nodes, n)
    ensures forall x :: x in Insert(nodes, n) ==> x in nodes || x == n
    ensures !HasTime(nodes, n.time) ==> n in Insert(nodes, n) && |Insert(nodes, n)| == |nodes| + 1
    ensures n.time in Times(Insert(nodes, n))
  {
    if HasTime(nodes, n.time) {
      HasTimeIn(nodes, n.time);
    } else {
      var p := InsertPos(nodes, n.time);
      InsertFresh(nodes, n);
      var r := Insert(nodes, n);
      assert nodes == nodes[..p] + nodes[p..];
      assert r == nodes[..p] + [n] + nodes[p..];
      assert Times(r)[p] == n.time;
    }
  }

  // ---------------------------------------------------------------------
  // UpdateCurveWithAddedKeys

  /** AddKeyToCurve(curve, t) followed by SmoothCurve(curve): a key at t
      whose value is what the curve evaluated to at t. */
  function AddKeyStep(ops: CurveOps, keys: seq<Key>, t: real): seq<Key> {
    SmoothAll(ops, Insert(keys, MakeKey(t, ops.evaluate(keys, t))))
  }

  lemma AddKeyStepProps(ops: CurveOps, keys: seq<Key>, t: real)
    ensures var r := AddKeyStep(ops, keys, t);
      (Sorted(keys) ==> Sorted(r)) &&
      (forall x :: x in Shape(keys) ==> x in Shape(r)) &&
      (forall x :: x in Shape(r) ==> x in Shape(keys) || x.0 == t) &&
      t in Times(r) &&
      (HasTime(keys, t) ==> Shape(r) == Shape(keys)) &&
      (!HasTime(keys, t) ==> |r| == |keys| + 1 && (t, ops.evaluate(keys, t)) in Shape(r))
  {
    var k := MakeKey(t, ops.evaluate(keys, t));
    var ins := Insert(keys, k);
    InsertShape(keys, k);
    SmoothAllShape(ops, ins);
    if Sorted(keys) {
      InsertSorted(keys, k);
    }
    if !HasTime(keys, t) {
      InsertFresh(keys, k);
    }
  }

  /** One iteration of UpdateCurveWithAddedKeys' loop, for node timestamp
      t; curveTs is the array of key times taken before the loop. */
  function MissingKeyStep(ops: CurveOps, curveTs: seq<real>, keys: seq<Key>, t: real): seq<Key> {
    if AnyWithin(curveTs, t) then keys else AddKeyStep(ops, keys, t)
  }

  /** The first n iterations of that loop over the node timestamps. */
  function AddMissingKeys(ops: CurveOps, nodeTs: seq<real>, curveTs: seq<real>, keys: seq<Key>, n: nat): seq<Key>
    requires n <= |nodeTs|
  {
    if n == 0 then keys
    else MissingKeyStep(ops, curveTs, AddMissingKeys(ops, nodeTs, curveTs, keys, n - 1), nodeTs[n - 1])
  }

  /** UpdateCurveWithAddedKeys (component version): one key for every node
      timestamp that no key was within Eps of when the call began. */
  function CurveWithAddedKeys(ops: CurveOps, nodeTs: seq<real>, keys: seq<Key>): seq<Key> {
    AddMissingKeys(ops, nodeTs, Times(keys), keys, |nodeTs|)
  }

  /** Some timestamp among the first n of nodeTs is exactly t. */
  predicate AmongFirst(nodeTs: seq<real>, n: nat, t: real) {
    exists j :: 0 <= j < n && j < |nodeTs| && nodeTs[j] == t
  }

  lemma {:induction false} AddMissingKeysKeeps(ops: CurveOps, nodeTs: seq<real>, curveTs: seq<real>, keys: seq<Key>, n: nat)
    requires n <= |nodeTs|
    ensures var r := AddMissingKeys(ops, nodeTs, curveTs, keys, n);
      (Sorted(keys) ==> Sorted(r)) &&
      (forall x :: x in Shape(keys) ==> x in Shape(r)) &&
      (forall x :: x in Shape(r) ==> x in Shape(keys) || AmongFirst(nodeTs, n, x.0)) &&
      |r| <= |keys| + n
  {
    if n > 0 {
      var prev := AddMissingKeys(ops, nodeTs, curveTs, keys, n - 1);
      AddMissingKeysKeeps(ops, nodeTs, curveTs, keys, n - 1);
      AddKeyStepProps(ops, prev, nodeTs[n - 1]);
      var r := AddMissingKeys(ops, nodeTs, curveTs, keys, n);
      forall x | x in Shape(r) && x !in Shape(keys) ensures AmongFirst(nodeTs, n, x.0) {
        if x in Shape(prev) {
          var j :| 0 <= j < n - 1 && j < |nodeTs| && nodeTs[j] == x.0;
        } else {
          assert nodeTs[n - 1] == x.0;
        }
      }
    }
  }

  /** AddKeyStep keeps every key time and adds t. */
  lemma AddKeyStepTimes(ops: CurveOps, keys: seq<Key>, t: real)
    ensures forall u :: u in Times(keys) ==> u in Times(AddKeyStep(ops, keys, t))
    ensures t in Times(AddKeyStep(ops, keys, t))
  {
    AddKeyStepProps(ops, keys, t);
    ShapeSubTimes(keys, AddKeyStep(ops, keys, t));
  }

  /** One step of the covering argument, on bare timestamp sequences. */
  lemma CoverStep(before: seq<real>, after: seq<real>, nodeTs: seq<real>, n: nat)
    requires 0 < n <= |nodeTs|
    requires forall u :: u in before ==> u in after
    requires forall j :: 0 <= j < n - 1 ==> AnyWithin(before, nodeTs[j])
    requires AnyWithin(after, nodeTs[n - 1])
    ensures forall j :: 0 <= j < n ==> AnyWithin(after, nodeTs[j])
  {
    forall j | 0 <= j < n - 1 ensures AnyWithin(after, nodeTs[j]) {
      AnyWithinMono(before, after, nodeTs[j]);
    }
  }

  lemma WithinSelf(ts: seq<real>, t: real)
    requires t in ts
    ensures AnyWithin(ts, t)
  {
    var i :| 0 <= i < |ts| && ts[i] == t;
    assert FloatsEqual(ts[i], t);
  }

  /** One iteration keeps every key time and leaves a key within Eps of t,
      so long as the snapshot's times are all still there. */
  lemma MissingKeyStepTimes(ops: CurveOps, curveTs: seq<real>, st: seq<Key>, t: real)
    requires forall c :: c in curveTs ==> c in Times(st)
    ensures var r := MissingKeyStep(ops, curveTs, st, t);
      (forall u :: u in Times(st) ==> u in Times(r)) && AnyWithin(Times(r), t)
  {
    var r := MissingKeyStep(ops, curveTs, st, t);
    if !AnyWithin(curveTs, t) {
      AddKeyStepTimes(ops, st, t);
      WithinSelf(Times(r), t);
    } else {
      AnyWithinMono(curveTs, Times(r), t);
    }
  }

  /** The subset step of the covering argument, on bare timestamps. */
  lemma SubsetTrans(a: seq<real>, b: seq<real>, c: seq<real>)
    requires forall u :: u in a ==> u in b
    requires forall u :: u in b ==> u in c
    ensures forall u :: u in a ==> u in c
  {
  }

  lemma {:induction false} AddMissingKeysCover(ops: CurveOps, nodeTs: seq<real>, curveTs: seq<real>, keys: seq<Key>, n: nat)
    requires n <= |nodeTs|
    requires forall c :: c in curveTs ==> c in Times(keys)
    ensures var r := AddMissingKeys(ops, nodeTs, curveTs, keys, n);
      (forall u :: u in Times(keys) ==> u in Times(r)) &&
      forall j :: 0 <= j < n ==> AnyWithin(Times(r), nodeTs[j])
  {
    if n > 0 {
      var prev := AddMissingKeys(ops, nodeTs, curveTs, keys, n - 1);
      var r := AddMissingKeys(ops, nodeTs, curveTs, keys, n);
      assert r == MissingKeyStep(ops, curveTs, prev, nodeTs[n - 1]);
      AddMissingKeysCover(ops, nodeTs, curveTs, keys, n - 1);
      var tk, tp, tr := Times(keys), Times(prev), Times(r);
      SubsetTrans(curveTs, tk, tp);
      MissingKeyStepTimes(ops, curveTs, prev, nodeTs[n - 1]);
      SubsetTrans(tk, tp, tr);
      CoverStep(tp, tr, nodeTs, n);
    }
  }

  /** After UpdateCurveWithAddedKeys every node timestamp has a key within
      Eps, every key that was there keeps its time and value, every new key
      sits at a node timestamp, and at most one key per node was added. */
  lemma CurveWithAddedKeysProps(ops: CurveOps, nodeTs: seq<real>, keys: seq<Key>)
    ensures var r := CurveWithAddedKeys(ops, nodeTs, keys);
      (Sorted(keys) ==> Sorted(r)) &&
      (forall j :: 0 <= j < |nodeTs| ==> AnyWithin(Times(r), nodeTs[j])) &&
      (forall x :: x in Shape(keys) ==> x in Shape(r)) &&
      (forall x :: x in Shape(r) ==> x in Shape(keys) || x.0 in nodeTs) &&
      |r| <= |keys| + |nodeTs|
  {
    AddMissingKeysKeeps(ops, nodeTs, Times(keys), keys, |nodeTs|);
    AddMissingKeysCover(ops, nodeTs, Times(keys), keys, |nodeTs|);
    var r := CurveWithAddedKeys(ops, nodeTs, keys);
    forall x | x in Shape(r) && x !in Shape(keys) ensures x.0 in nodeTs {
      var j :| 0 <= j < |nodeTs| && nodeTs[j] == x.0;
    }
  }

  /** Each key UpdateCurveWithAddedKeys inserts takes the value the curve
      had at that time just before the insertion. */
  lemma AddedKeyValue(ops: CurveOps, keys: seq<Key>, t: real)
    requires !HasTime(keys, t)
    ensures |AddKeyStep(ops, keys, t)| == |keys| + 1
    ensures (t, ops.evaluate(keys, t)) in Shape(AddKeyStep(ops, keys, t))
    ensures forall x :: x in Shape(keys) ==> x in Shape(AddKeyStep(ops, keys, t))
  {
    AddKeyStepProps(ops, keys, t);
  }

  // ---------------------------------------------------------------------
  // UpdateCurveWithAddedKeys, older version: at most one key per call

  /** The older UpdateCurveWithAddedKeys: the first node timestamp, in path
      order, that no key is within Eps of gets a key; nothing else. */
  function CurveWithFirstMissingKey(ops: CurveOps, nodeTs: seq<real>, keys: seq<Key>): (r: seq<Key>)
    ensures |r| <= |keys| + 1
    ensures (forall j :: 0 <= j < |nodeTs| ==> AnyWithin(Times(keys), nodeTs[j])) ==> r == keys
  {
    var i := FirstUnmatched(nodeTs, Times(keys));
    if i == |nodeTs| then keys else AddKeyStep(ops, keys, nodeTs[i])
  }

  lemma FirstMissingKeyAdded(ops: CurveOps, nodeTs: seq<real>, keys: seq<Key>, i: nat)
    requires i < |nodeTs|
    requires forall j :: 0 <= j < i ==> AnyWithin(Times(keys), nodeTs[j])
    requires !AnyWithin(Times(keys), nodeTs[i])
    ensures var r := CurveWithFirstMissingKey(ops, nodeTs, keys);
      |r| == |keys| + 1 &&
      (nodeTs[i], ops.evaluate(keys, nodeTs[i])) in Shape(r) &&
      (forall x :: x in Shape(keys) ==> x in Shape(r)) &&
      (forall x :: x in Shape(r) ==> x in Shape(keys) || x.0 == nodeTs[i])
  {
    FirstUnmatchedAt(nodeTs, Times(keys), i);
    NotWithinNoTime(keys, nodeTs[i]);
    AddKeyStepProps(ops, keys, nodeTs[i]);
  }

  // ---------------------------------------------------------------------
  // UpdateCurveWithRemovedKeys and UpdateRotationPathWithRemovedKeys

  /** FirstUnmatched over the times of s, read entry by entry. */
  lemma FirstUnmatchedTimes<V>(s: seq<Timed<V>>, ts: seq<real>)
    ensures var i := FirstUnmatched(Times(s), ts);
      i <= |s| && (forall j :: 0 <= j < i ==> AnyWithin(ts, s[j].time)) &&
      (i < |s| ==> !AnyWithin(ts, s[i].time))
  {
    var i := FirstUnmatched(Times(s), ts);
    forall j | 0 <= j < i ensures AnyWithin(ts, s[j].time) {
      assert Times(s)[j] == s[j].time;
    }
    if i < |s| {
      assert Times(s)[i] == s[i].time;
    }
  }

  /** UpdateCurveWithRemovedKeys (both versions): the lowest-index key that
      no node timestamp is within Eps of is removed, and the curve smoothed. */
  function CurveWithRemovedKeys(ops: CurveOps, nodeTs: seq<real>, keys: seq<Key>): seq<Key> {
    var i := FirstUnmatched(Times(keys), nodeTs);
    if i == |keys| then keys else SmoothAll(ops, RemoveAt(keys, i))
  }

  /** Only the first unmatched key goes; every other key keeps its time and
      value, and a curve whose keys are all matched is left as it is. */
  lemma CurveWithRemovedKeysProps(ops: CurveOps, nodeTs: seq<real>, keys: seq<Key>)
    ensures var r := CurveWithRemovedKeys(ops, nodeTs, keys);
      var i := FirstUnmatched(Times(keys), nodeTs);
      (i == |keys| <==> forall j :: 0 <= j < |keys| ==> AnyWithin(nodeTs, keys[j].time)) &&
      (i == |keys| ==> r == keys) &&
      (i < |keys| ==>
        |r| == |keys| - 1 && Shape(r) == Shape(RemoveAt(keys, i)) &&
        !AnyWithin(nodeTs, keys[i].time) &&
        forall j :: 0 <= j < i ==> AnyWithin(nodeTs, keys[j].time)) &&
      (Sorted(keys) ==> Sorted(r))
  {
    var i := FirstUnmatched(Times(keys), nodeTs);
    FirstUnmatchedTimes(keys, nodeTs);
    if i < |keys| {
      SmoothAllShape(ops, RemoveAt(keys, i));
      if Sorted(keys) {
        RemoveAtSorted(keys, i);
      }
    }
  }

  /** UpdateRotationPathWithRemovedKeys (both versions): the first rotation
      node whose time no node timestamp is within Eps of is removed. */
  function RotationWithRemovedNodes(nodeTs: seq<real>, rot: seq<Node>): seq<Node> {
    var i := FirstUnmatched(Times(rot), nodeTs);
    if i == |rot| then rot else RemoveAt(rot, i)
  }

  lemma RotationWithRemovedNodesProps(nodeTs: seq<real>, rot: seq<Node>)
    ensures var r := RotationWithRemovedNodes(nodeTs, rot);
      var i := FirstUnmatched(Times(rot), nodeTs);
      (i == |rot| <==> forall j :: 0 <= j < |rot| ==> AnyWithin(nodeTs, rot[j].time)) &&
      (i == |rot| ==> r == rot) &&
      (i < |rot| ==>
        r == rot[..i] + rot[i + 1..] && !AnyWithin(nodeTs, rot[i].time) &&
        forall j :: 0 <= j < i ==> AnyWithin(nodeTs, rot[j].time)) &&
      (Sorted(rot) ==> Sorted(r))
  {
    var i := FirstUnmatched(Times(rot), nodeTs);
    FirstUnmatchedTimes(rot, nodeTs);
    if i < |rot| && Sorted(rot) {
      RemoveAtSorted(rot, i);
    }
  }

  // ---------------------------------------------------------------------
  // UpdateRotationPathWithAddedKeys

  /** CreateRotationPoint(t): a rotation node at t placed where the rotation
      path currently runs at t. */
  function CreateRotationPoint(ops: PathOps, rot: seq<Node>, t: real): seq<Node> {
    Insert(rot, Timed(t, ops.vectorAt(rot, t)))
  }

  function AddMissingNodes(ops: PathOps, nodeTs: seq<real>, rotTs: seq<real>, rot: seq<Node>, n: nat): seq<Node>
    requires n <= |nodeTs|
  {
    if n == 0 then rot
    else
      var prev := AddMissingNodes(ops, nodeTs, rotTs, rot, n - 1);
      if AnyWithin(rotTs, nodeTs[n - 1]) then prev else CreateRotationPoint(ops, prev, nodeTs[n - 1])
  }

  /** UpdateRotationPathWithAddedKeys: a rotation node for every node
      timestamp that no rotation node was within Eps of. */
  function RotationWithAddedNodes(ops: PathOps, nodeTs: seq<real>, rot: seq<Node>): seq<Node> {
    AddMissingNodes(ops, nodeTs, Times(rot), rot, |nodeTs|)
  }

  lemma {:induction false} AddMissingNodesKeeps(ops: PathOps, nodeTs: seq<real>, rotTs: seq<real>, rot: seq<Node>, n: nat)
    requires n <= |nodeTs|
    ensures var r := AddMissingNodes(ops, nodeTs, rotTs, rot, n);
      (Sorted(rot) ==> Sorted(r)) &&
      (forall x :: x in rot ==> x in r) &&
      (forall x :: x in r ==> x in rot || AmongFirst(nodeTs, n, x.time)) &&
      |r| <= |rot| + n
  {
    if n > 0 {
      var prev := AddMissingNodes(ops, nodeTs, rotTs, rot, n - 1);
      var t := nodeTs[n - 1];
      AddMissingNodesKeeps(ops, nodeTs, rotTs, rot, n - 1);
      InsertNodes(prev, Timed(t, ops.vectorAt(prev, t)));
      if Sorted(rot) {
        InsertSorted(prev, Timed(t, ops.vectorAt(prev, t)));
      }
      var r := AddMissingNodes(ops, nodeTs, rotTs, rot, n);
      forall x | x in r && x !in rot ensures AmongFirst(nodeTs, n, x.time) {
        if x in prev {
          var j :| 0 <= j < n - 1 && j < |nodeTs| && nodeTs[j] == x.time;
        } else {
          assert nodeTs[n - 1] == x.time;
        }
      }
    }
  }

  lemma {:induction false} AddMissingNodesCover(ops: PathOps, nodeTs: seq<real>, rotTs: seq<real>, rot: seq<Node>, n: nat)
    requires n <= |nodeTs|
    requires forall c :: c in rotTs ==> c in Times(rot)
    ensures var r := AddMissingNodes(ops, nodeTs, rotTs, rot, n);
      (forall u :: u in Times(rot) ==> u in Times(r)) &&
      forall j :: 0 <= j < n ==> AnyWithin(Times(r), nodeTs[j])
  {
    if n > 0 {
      var prev := AddMissingNodes(ops, nodeTs, rotTs, rot, n - 1);
      var r := AddMissingNodes(ops, nodeTs, rotTs, rot, n);
      var t := nodeTs[n - 1];
      AddMissingNodesCover(ops, nodeTs, rotTs, rot, n - 1);
      var tp, tr := Times(prev), Times(r);
      if !AnyWithin(rotTs, t) {
        InsertNodes(prev, Timed(t, ops.vectorAt(prev, t)));
        SubTimesNodes(prev, r);
        WithinSelf(tr, t);
      } else {
        assert r == prev;
        AnyWithinMono(rotTs, tr, t);
      }
      CoverStep(tp, tr, nodeTs, n);
    }
  }

  /** After UpdateRotationPathWithAddedKeys every node timestamp has a
      rotation node within Eps, the existing rotation nodes are untouched and
      every new one sits at a node timestamp. */
  lemma RotationWithAddedNodesProps(ops: PathOps, nodeTs: seq<real>, rot: seq<Node>)
    ensures var r := RotationWithAddedNodes(ops, nodeTs, rot);
      (Sorted(rot) ==> Sorted(r)) &&
      (forall j :: 0 <= j < |nodeTs| ==> AnyWithin(Times(r), nodeTs[j])) &&
      (forall x :: x in rot ==> x in r) &&
      (forall x :: x in r ==> x in rot || x.time in nodeTs) &&
      |r| <= |rot| + |nodeTs|
  {
    AddMissingNodesKeeps(ops, nodeTs, Times(rot), rot, |nodeTs|);
    AddMissingNodesCover(ops, nodeTs, Times(rot), rot, |nodeTs|);
    var r := RotationWithAddedNodes(ops, nodeTs, rot);
    forall x | x in r && x !in rot ensures x.time in nodeTs {
      var j :| 0 <= j < |nodeTs| && nodeTs[j] == x.time;
    }
  }

  /** A rotation node created for a missing timestamp is placed where the
      rotation path ran at that time before the insertion. */
  lemma RotationPointPosition(ops: PathOps, rot: seq<Node>, t: real)
    requires !HasTime(rot, t)
    ensures Timed(t, ops.vectorAt(rot, t)) in CreateRotationPoint(ops, rot, t)
    ensures |CreateRotationPoint(ops, rot, t)| == |rot| + 1
    ensures forall x :: x in rot ==> x in CreateRotationPoint(ops, rot, t)
  {
    InsertNodes(rot, Timed(t, ops.vectorAt(rot, t)));
  }

  // ---------------------------------------------------------------------
  // The NodeAdded / NodeRemoved cascade keeps the four collections in step

  /** Timestamps of the entries of a, with entry i left out. */
  lemma TimesRemoveAt<V>(s: seq<Timed<V>>, i: nat)
    requires i < |s|
    ensures Times(RemoveAt(s, i)) == Times(s)[..i] + Times(s)[i + 1..]
  {
  }

  /** When exactly one node timestamp (index p) has no counterpart in
      curveTs, the loop of UpdateCurveWithAddedKeys adds that one key. */
  lemma {:induction false} AddMissingOnly(ops: CurveOps, nodeTs: seq<real>, curveTs: seq<real>, keys: seq<Key>, n: nat, p: nat)
    requires n <= |nodeTs| && p < |nodeTs|
    requires forall j :: 0 <= j < |nodeTs| && j != p ==> AnyWithin(curveTs, nodeTs[j])
    requires !AnyWithin(curveTs, nodeTs[p])
    ensures AddMissingKeys(ops, nodeTs, curveTs, keys, n) == if n > p then AddKeyStep(ops, keys, nodeTs[p]) else keys
  {
    if n > 0 {
      AddMissingOnly(ops, nodeTs, curveTs, keys, n - 1, p);
      var prev := AddMissingKeys(ops, nodeTs, curveTs, keys, n - 1);
      if n - 1 == p {
        assert prev == keys;
      } else {
        assert AnyWithin(curveTs, nodeTs[n - 1]);
      }
    }
  }

  lemma {:induction false} AddMissingNodesOnly(ops: PathOps, nodeTs: seq<real>, rotTs: seq<real>, rot: seq<Node>, n: nat, p: nat)
    requires n <= |nodeTs| && p < |nodeTs|
    requires forall j :: 0 <= j < |nodeTs| && j != p ==> AnyWithin(rotTs, nodeTs[j])
    requires !AnyWithin(rotTs, nodeTs[p])
    ensures AddMissingNodes(ops, nodeTs, rotTs, rot, n) == if n > p then CreateRotationPoint(ops, rot, nodeTs[p]) else rot
  {
    if n > 0 {
      AddMissingNodesOnly(ops, nodeTs, rotTs, rot, n - 1, p);
      var prev := AddMissingNodes(ops, nodeTs, rotTs, rot, n - 1);
      if n - 1 == p {
        assert prev == rot;
      } else {
        assert AnyWithin(rotTs, nodeTs[n - 1]);
      }
    }
  }

  /** Strictly ascending timestamps. */
  predicate Increasing(ts: seq<real>) {
    forall i, j :: 0 <= i < j < |ts| ==> ts[i] < ts[j]
  }

  lemma SortedIncreasing<V>(s: seq<Timed<V>>)
    requires Sorted(s)
    ensures Increasing(Times(s))
  {
    forall i, j | 0 <= i < j < |s| ensures Times(s)[i] < Times(s)[j] {
      assert s[i].time < s[j].time;
    }
  }

  /** Adding keys to an empty curve, timestamp after ascending timestamp:
      key j holds timestamp j. */
  lemma {:induction false} AddMissingKeysFromEmpty(ops: CurveOps, ts: seq<real>, n: nat)
    requires Increasing(ts) && n <= |ts|
    ensures Times(AddMissingKeys(ops, ts, [], [], n)) == ts[..n]
  {
    if n > 0 {
      AddMissingKeysFromEmpty(ops, ts, n - 1);
      AddKeyLast(ops, AddMissingKeys(ops, ts, [], [], n - 1), ts, n);
    }
  }

  /** A key later than every other is added at the end. */
  lemma AddKeyLast(ops: CurveOps, keys: seq<Key>, ts: seq<real>, n: nat)
    requires 0 < n <= |ts| && Times(keys) == ts[..n - 1]
    requires forall j :: 0 <= j < n - 1 ==> ts[j] < ts[n - 1]
    ensures Times(MissingKeyStep(ops, [], keys, ts[n - 1])) == ts[..n]
  {
    var t := ts[n - 1];
    assert !AnyWithin([], t);
    var k := MakeKey(t, ops.evaluate(keys, t));
    forall j | 0 <= j < |keys| ensures keys[j].time < t {
      assert Times(keys)[j] == keys[j].time;
    }
    InsertLast(keys, k);
    SmoothAllShape(ops, Insert(keys, k));
    assert ts[..n] == ts[..n - 1] + [t];
  }

  /** ResetEaseCurve / ResetTiltingCurve: a new curve updated with the added
      keys has one key per node, at the node's time. */
  lemma CurveFromNodes(ops: CurveOps, nodes: seq<Node>)
    requires Sorted(nodes)
    ensures Times(CurveWithAddedKeys(ops, Times(nodes), [])) == Times(nodes)
  {
    assert Times<KeyData>([]) == [];
    SortedIncreasing(nodes);
    AddMissingKeysFromEmpty(ops, Times(nodes), |nodes|);
  }

  lemma {:induction false} AddMissingNodesFromEmpty(ops: PathOps, ts: seq<real>, n: nat)
    requires Increasing(ts) && n <= |ts|
    ensures Times(AddMissingNodes(ops, ts, [], [], n)) == ts[..n]
  {
    if n > 0 {
      AddMissingNodesFromEmpty(ops, ts, n - 1);
      AddNodeLast(ops, AddMissingNodes(ops, ts, [], [], n - 1), ts, n);
    }
  }

  /** A rotation node later than every other is added at the end. */
  lemma AddNodeLast(ops: PathOps, rot: seq<Node>, ts: seq<real>, n: nat)
    requires 0 < n <= |ts| && Times(rot) == ts[..n - 1]
    requires forall j :: 0 <= j < n - 1 ==> ts[j] < ts[n - 1]
    ensures Times(CreateRotationPoint(ops, rot, ts[n - 1])) == ts[..n]
  {
    var t := ts[n - 1];
    assert !AnyWithin([], t);
    forall j | 0 <= j < |rot| ensures rot[j].time < t {
      assert Times(rot)[j] == rot[j].time;
    }
    InsertLast(rot, Timed(t, ops.vectorAt(rot, t)));
    assert ts[..n] == ts[..n - 1] + [t];
  }

  /** ResetRotationPath, up to the positions: an emptied rotation path
      updated with the added keys has one node per path node, at its time. */
  lemma RotationFromNodes(ops: PathOps, nodes: seq<Node>)
    requires Sorted(nodes)
    ensures Times(RotationWithAddedNodes(ops, Times(nodes), [])) == Times(nodes)
  {
    assert Times<Vec3>([]) == [];
    SortedIncreasing(nodes);
    AddMissingNodesFromEmpty(ops, Times(nodes), |nodes|);
  }


  /** After a node at a time at least Eps away from every other node is
      inserted, every node timestamp but the new one already occurs among
      the old ones. */
  lemma InsertedTimestamps(nodes: seq<Node>, e: Node, ts: seq<real>)
    requires Times(nodes) == ts
    requires !AnyWithin(ts, e.time)
    ensures var p := InsertPos(nodes, e.time); var nts := Times(Insert(nodes, e));
      p < |nts| && nts[p] == e.time &&
      forall j :: 0 <= j < |nts| && j != p ==> AnyWithin(ts, nts[j])
  {
    NotWithinNoTime(nodes, e.time);
    InsertFresh(nodes, e);
    var p := InsertPos(nodes, e.time);
    var nts := Times(Insert(nodes, e));
    forall j | 0 <= j < |nts| && j != p ensures AnyWithin(ts, nts[j]) {
      var k := if j < p then j else j - 1;
      assert nts[j] == ts[k];
      WithinSelf(ts, ts[k]);
    }
  }

  /** NodeAdded on the ease or tilting curve (component version): if the
      curve's key times were the path's node times before CreateNewNode or
      CreateNodeAtTime added a node at least Eps away from every other node,
      they are the path's node times again afterwards. */
  lemma CascadeAddCurve(ops: CurveOps, nodes: seq<Node>, keys: seq<Key>, e: Node)
    requires Times(keys) == Times(nodes)
    requires !AnyWithin(Times(nodes), e.time)
    ensures Times(CurveWithAddedKeys(ops, Times(Insert(nodes, e)), keys)) == Times(Insert(nodes, e))
  {
    var nts := Times(Insert(nodes, e));
    var p := InsertPos(nodes, e.time);
    InsertedTimestamps(nodes, e, Times(keys));
    AddMissingOnly(ops, nts, Times(keys), keys, |nts|, p);
    var k := MakeKey(e.time, ops.evaluate(keys, e.time));
    SmoothAllShape(ops, Insert(keys, k));
    InsertTimes(keys, k, nodes, e);
  }

  /** The same for the older, one-key-per-call UpdateCurveWithAddedKeys. */
  lemma CascadeAddCurveFirstMissing(ops: CurveOps, nodes: seq<Node>, keys: seq<Key>, e: Node)
    requires Times(keys) == Times(nodes)
    requires !AnyWithin(Times(nodes), e.time)
    ensures Times(CurveWithFirstMissingKey(ops, Times(Insert(nodes, e)), keys)) == Times(Insert(nodes, e))
  {
    var nts := Times(Insert(nodes, e));
    var p := InsertPos(nodes, e.time);
    InsertedTimestamps(nodes, e, Times(keys));
    FirstUnmatchedAt(nts, Times(keys), p);
    var k := MakeKey(e.time, ops.evaluate(keys, e.time));
    SmoothAllShape(ops, Insert(keys, k));
    InsertTimes(keys, k, nodes, e);
  }

  /** NodeAdded on the rotation path. */
  lemma CascadeAddRotation(ops: PathOps, nodes: seq<Node>, rot: seq<Node>, e: Node)
    requires Times(rot) == Times(nodes)
    requires !AnyWithin(Times(nodes), e.time)
    ensures Times(RotationWithAddedNodes(ops, Times(Insert(nodes, e)), rot)) == Times(Insert(nodes, e))
  {
    var nts := Times(Insert(nodes, e));
    var p := InsertPos(nodes, e.time);
    InsertedTimestamps(nodes, e, Times(rot));
    AddMissingNodesOnly(ops, nts, Times(rot), rot, |nts|, p);
    InsertTimes(rot, Timed(e.time, ops.vectorAt(rot, e.time)), nodes, e);
  }

  /** With node timestamps pairwise at least Eps apart, the only old time
      that no remaining node matches is the removed node's. */
  lemma RemovedTimestamps(ts: seq<real>, i: nat)
    requires Separated(ts) && i < |ts|
    ensures forall j :: 0 <= j < i ==> AnyWithin(ts[..i] + ts[i + 1..], ts[j])
    ensures !AnyWithin(ts[..i] + ts[i + 1..], ts[i])
  {
    var rest := ts[..i] + ts[i + 1..];
    forall j | 0 <= j < i ensures AnyWithin(rest, ts[j]) {
      assert rest[j] == ts[j];
      WithinSelf(rest, ts[j]);
    }
    forall k | 0 <= k < |rest| ensures !FloatsEqual(rest[k], ts[i]) {
      if k < i {
        assert rest[k] == ts[k];
      } else {
        assert rest[k] == ts[k + 1];
      }
    }
  }

  /** NodeRemoved on a curve: key times that mirrored Eps-separated node
      times mirror them again once RemoveNode(i) and its cascade are done,
      the key removed being key i. */
  lemma CascadeRemoveCurve(ops: CurveOps, nodes: seq<Node>, keys: seq<Key>, i: nat)
    requires Times(keys) == Times(nodes) && Separated(Times(nodes)) && i < |nodes|
    ensures CurveWithRemovedKeys(ops, Times(RemoveAt(nodes, i)), keys) == SmoothAll(ops, RemoveAt(keys, i))
    ensures Times(CurveWithRemovedKeys(ops, Times(RemoveAt(nodes, i)), keys)) == Times(RemoveAt(nodes, i))
  {
    TimesRemoveAt(nodes, i);
    RemovedTimestamps(Times(nodes), i);
    FirstUnmatchedAt(Times(keys), Times(RemoveAt(nodes, i)), i);
    SmoothAllShape(ops, RemoveAt(keys, i));
    RemoveAtTimes(keys, nodes, i);
  }

  /** NodeRemoved on the rotation path. */
  lemma CascadeRemoveRotation(nodes: seq<Node>, rot: seq<Node>, i: nat)
    requires Times(rot) == Times(nodes) && Separated(Times(nodes)) && i < |nodes|
    ensures RotationWithRemovedNodes(Times(RemoveAt(nodes, i)), rot) == RemoveAt(rot, i)
    ensures Times(RotationWithRemovedNodes(Times(RemoveAt(nodes, i)), rot)) == Times(RemoveAt(nodes, i))
  {
    TimesRemoveAt(nodes, i);
    RemovedTimestamps(Times(nodes), i);
    FirstUnmatchedAt(Times(rot), Times(RemoveAt(nodes, i)), i);
    RemoveAtTimes(rot, nodes, i);
  }

  /** Putting a time at least Eps away from all others at its place in
      order keeps the times pairwise Eps apart. */
  lemma SeparatedPut(ts: seq<real>, p: nat, t: real)
    requires p <= |ts| && Separated(ts) && !AnyWithin(ts, t)
    requires forall j :: 0 <= j < p ==> ts[j] < t
    requires forall j :: p <= j < |ts| ==> ts[j] > t
    ensures Separated(ts[..p] + [t] + ts[p..])
  {
    var r := ts[..p] + [t] + ts[p..];
    forall a, b | 0 <= a < b < |r| ensures r[b] - r[a] >= Eps {
      if a == p {
        assert r[b] == ts[b - 1] && !FloatsEqual(ts[b - 1], t);
      } else if b == p {
        assert r[a] == ts[a] && !FloatsEqual(ts[a], t);
      } else {
        var a' := if a < p then a else a - 1;
        var b' := if b < p then b else b - 1;
        assert r[a] == ts[a'] && r[b] == ts[b'];
      }
    }
  }

  /** Inserting a time at least Eps away from all others keeps the times
      pairwise Eps apart. */
  lemma SeparatedInsert(nodes: seq<Node>, e: Node)
    requires Sorted(nodes) && Separated(Times(nodes)) && !AnyWithin(Times(nodes), e.time)
    ensures Separated(Times(Insert(nodes, e)))
  {
    var p := InsertPos(nodes, e.time);
    var ts := Times(nodes);
    NotWithinNoTime(nodes, e.time);
    TimesInsertFresh(nodes, e);
    forall j | p <= j < |ts| ensures ts[j] > e.time {
      assert nodes[p].time <= nodes[j].time;
      assert nodes[j].time != e.time;
    }
    SeparatedPut(ts, p, e.time);
  }

  lemma SeparatedRemove(nodes: seq<Node>, i: nat)
    requires Separated(Times(nodes)) && i < |nodes|
    ensures Separated(Times(RemoveAt(nodes, i)))
  {
    TimesRemoveAt(nodes, i);
    RemoveAtSeparated(Times(nodes), i);
  }

  /** A node added closer than Eps to an existing one (but not at the same
      time) gets no key: the cascade then leaves the curve one key short. */
  lemma NearNodeNotMirrored(ops: CurveOps)
    ensures var nodes := [Timed(0.0, Vec3(0.0, 0.0, 0.0)), Timed(1.0, Vec3(1.0, 0.0, 1.0))];
      var keys := [MakeKey(0.0, 0.05), MakeKey(1.0, 0.05)];
      var e := Timed(0.0005, Vec3(0.0, 0.0, 0.0));
      Times(keys) == Times(nodes) &&
      CurveWithAddedKeys(ops, Times(Insert(nodes, e)), keys) == keys &&
      |Insert(nodes, e)| == 3
  {
    var nodes := [Timed(0.0, Vec3(0.0, 0.0, 0.0)), Timed(1.0, Vec3(1.0, 0.0, 1.0))];
    var keys := [MakeKey(0.0, 0.05), MakeKey(1.0, 0.05)];
    var e := Timed(0.0005, Vec3(0.0, 0.0, 0.0));
    assert InsertPos(nodes, e.time) == 1;
    assert Insert(nodes, e) == [nodes[0], e, nodes[1]];
    var nts := Times(Insert(nodes, e));
    assert nts == [0.0, 0.0005, 1.0];
    var cts := Times(keys);
    assert FloatsEqual(cts[0], nts[0]) && FloatsEqual(cts[0], nts[1]) && FloatsEqual(cts[1], nts[2]);
    assert AddMissingKeys(ops, nts, cts, keys, 1) == keys;
    assert AddMissingKeys(ops, nts, cts, keys, 2) == keys;
    assert AddMissingKeys(ops, nts, cts, keys, 3) == keys;
  }
}
