/** The default contents both PathData versions give their four
    collections: two path and rotation nodes, at times 0 and 1, and two keys
    on each curve. Each default is added with the collection's own add
    operation, so on a collection that already holds entries it only adds
    what is missing. */
module PathDefaults {
  import opened Timeline
  import opened Curves
  import opened Paths

  /** DefaultEaseCurveValue. */
  const DefaultEaseCurveValue: real := 0.05

  const FirstNode: Node := Timed(0.0, Vec3(0.0, 0.0, 0.0))
  const LastNode: Node := Timed(1.0, Vec3(1.0, 0.0, 1.0))

  /** InitializeAnimatedObjectPath / InitializeRotationPath:
      CreateNewNode(0, (0,0,0)) then CreateNewNode(1, (1,0,1)). */
  function WithDefaultNodes(nodes: seq<Node>): seq<Node> {
    Insert(Insert(nodes, FirstNode), LastNode)
  }

  /** InitializeEaseCurve: AddKey(0, 0.05) then AddKey(1, 0.05). */
  function WithDefaultEaseKeys(keys: seq<Key>): seq<Key> {
    Insert(Insert(keys, MakeKey(0.0, DefaultEaseCurveValue)), MakeKey(1.0, DefaultEaseCurveValue))
  }

  /** InitializeTiltingCurve: AddKey(0, 0) then AddKey(1, 0). */
  function WithDefaultTiltingKeys(keys: seq<Key>): seq<Key> {
    Insert(Insert(keys, MakeKey(0.0, 0.0)), MakeKey(1.0, 0.0))
  }

  /** On empty collections the defaults are exactly the two entries. */
  lemma DefaultsOnEmpty()
    ensures WithDefaultNodes([]) == [Timed(0.0, Vec3(0.0, 0.0, 0.0)), Timed(1.0, Vec3(1.0, 0.0, 1.0))]
    ensures WithDefaultEaseKeys([]) == [MakeKey(0.0, 0.05), MakeKey(1.0, 0.05)]
    ensures WithDefaultTiltingKeys([]) == [MakeKey(0.0, 0.0), MakeKey(1.0, 0.0)]
  {
    InsertLast([FirstNode], LastNode);
    InsertLast([MakeKey(0.0, DefaultEaseCurveValue)], MakeKey(1.0, DefaultEaseCurveValue));
    InsertLast([MakeKey(0.0, 0.0)], MakeKey(1.0, 0.0));
  }

  /** The default collections mirror each other's timestamps, which are Eps
      apart and sorted. */
  lemma DefaultsSynchronised()
    ensures var ts := Times(WithDefaultNodes([]));
      ts == [0.0, 1.0] && Separated(ts) && Sorted(WithDefaultNodes([])) &&
      Times(WithDefaultEaseKeys([])) == ts && Times(WithDefaultTiltingKeys([])) == ts
  {
    DefaultsOnEmpty();
    assert Times(WithDefaultNodes([]))[1] == 1.0;
    assert Times(WithDefaultEaseKeys([]))[1] == 1.0;
    assert Times(WithDefaultTiltingKeys([]))[1] == 1.0;
  }

  /** Adding the defaults again to the default collections changes nothing:
      every default entry is refused as an exact duplicate time. */
  lemma DefaultsAgain()
    ensures WithDefaultNodes(WithDefaultNodes([])) == WithDefaultNodes([])
    ensures WithDefaultEaseKeys(WithDefaultEaseKeys([])) == WithDefaultEaseKeys([])
    ensures WithDefaultTiltingKeys(WithDefaultTiltingKeys([])) == WithDefaultTiltingKeys([])
  {
    DefaultsOnEmpty();
    var nodes := WithDefaultNodes([]);
    assert nodes[0].time == 0.0 && nodes[1].time == 1.0;
    var ease := WithDefaultEaseKeys([]);
    assert ease[0].time == 0.0 && ease[1].time == 1.0;
    var tilt := WithDefaultTiltingKeys([]);
    assert tilt[0].time == 0.0 && tilt[1].time == 1.0;
  }
}
