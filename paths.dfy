/** The repository's AnimationPath, as far as PathData uses it: a sequence of
    nodes (time, 3D position) sorted by time. Spatial evaluation is not part
    of this model; it is an uninterpreted function held in PathOps, and the
    sampled arc lengths are inputs of the operation that uses them. Node
    tangents are not modelled, so the tangent-smoothing calls on a path
    change nothing here. */
module Paths {
  import opened Timeline

  datatype Vec3 = Vec3(x: real, y: real, z: real) {
    function Plus(d: Vec3): Vec3 {
      Vec3(x + d.x, y + d.y, z + d.z)
    }

    function Negated(): Vec3 {
      Vec3(-x, -y, -z)
    }
  }

  type Node = Timed<Vec3>

  /** AnimationPath.GetVectorAtTime. */
  datatype PathOps = PathOps(vectorAt: (seq<Node>, real) -> Vec3)

  function Positions(s: seq<Node>): (r: seq<Vec3>)
    ensures |r| == |s|
    ensures forall i :: 0 <= i < |s| ==> r[i] == s[i].data
  {
    seq(|s|, i requires 0 <= i < |s| => s[i].data)
  }

  /** An AnimationPath. */
  class Path {
    const ops: PathOps
    var nodes: seq<Node>

    ghost predicate Valid()
      reads this
    {
      Sorted(nodes)
    }

    /** A new path, once its curves are instantiated: no nodes. */
    constructor (ops: PathOps)
      ensures Valid() && this.ops == ops && nodes == []
    {
      this.ops := ops;
      nodes := [];
    }

    /** path.InstantiateAnimationPathCurves() on an existing path: its axis
        curves replaced by empty ones. */
    method InstantiateAnimationPathCurves()
      modifies this
      ensures Valid() && nodes == []
    {
      nodes := [];
    }

    function KeysNo(): nat
      reads this
    {
      |nodes|
    }

    function GetVectorAtTime(t: real): Vec3
      reads this
    {
      ops.vectorAt(nodes, t)
    }

    function GetVectorAtKey(i: nat): Vec3
      requires i < |nodes|
      reads this
    {
      nodes[i].data
    }

    function GetTimeAtKey(i: nat): real
      requires i < |nodes|
      reads this
    {
      nodes[i].time
    }

    /** path.CreateNewNode(timestamp, position): adds a key to each axis
        curve; refused when a node already has that exact time. */
    method CreateNewNode(timestamp: real, position: Vec3)
      requires Valid()
      modifies this
      ensures Valid()
      ensures nodes == Insert(old(nodes), Timed(timestamp, position))
    {
      InsertSorted(nodes, Timed(timestamp, position));
      nodes := Insert(nodes, Timed(timestamp, position));
    }

    /** path.AddNodeAtTime(timestamp): a node placed on the path where it
        already runs at that time. */
    method AddNodeAtTime(timestamp: real)
      requires Valid()
      modifies this
      ensures Valid()
      ensures nodes == Insert(old(nodes), Timed(timestamp, ops.vectorAt(old(nodes), timestamp)))
    {
      var position := GetVectorAtTime(timestamp);
      CreateNewNode(timestamp, position);
    }

    method RemoveNode(i: nat)
      requires Valid() && i < |nodes|
      modifies this
      ensures Valid()
      ensures nodes == RemoveAt(old(nodes), i)
    {
      RemoveAtSorted(nodes, i);
      nodes := RemoveAt(nodes, i);
    }

    /** path.ChangeNodeTimestamp(i, t): MoveKey on each axis curve. */
    method ChangeNodeTimestamp(i: nat, t: real)
      requires Valid() && i < |nodes|
      modifies this
      ensures Valid()
      ensures nodes == MoveTo(old(nodes), i, t)
    {
      MoveToSorted(nodes, i, t);
      nodes := MoveTo(nodes, i, t);
    }

    /** path.MovePointToPosition(i, position): the node keeps its time. */
    method MovePointToPosition(i: nat, position: Vec3)
      requires Valid() && i < |nodes|
      modifies this
      ensures Valid()
      ensures nodes == SetData(old(nodes), i, position)
    {
      nodes := SetData(nodes, i, position);
      assert forall j :: 0 <= j < |nodes| ==> nodes[j].time == Times(nodes)[j] == Times(old(nodes))[j];
    }

    /** path.GetTimestamps(): a fresh array of the node times. */
    method GetTimestamps() returns (r: array<real>)
      ensures fresh(r) && r[..] == Times(nodes)
    {
      r := new real[|nodes|];
      var i := 0;
      while i < |nodes|
        invariant 0 <= i <= |nodes|
        invariant forall j :: 0 <= j < i ==> r[j] == nodes[j].time
      {
        r[i] := nodes[i].time;
        i := i + 1;
      }
    }
  }
}
