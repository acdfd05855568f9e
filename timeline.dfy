/** Sequences of time-stamped entries kept in ascending time order.

    Unity's AnimationCurve (keys) and the repository's AnimationPath (nodes)
    both store their entries this way. Their own source is not part of this
    model, so their add, remove and move operations are stated here once,
    generically, with these assumptions:
    - adding an entry whose time equals an existing entry's time exactly is
      refused and leaves the sequence unchanged (AnimationCurve.AddKey returns -1);
    - otherwise the entry is inserted before the first entry with a later time;
    - moving entry i to time t removes it and inserts it again with time t,
      unless another entry already has time t, in which case the entry keeps
      its old time (AnimationCurve.MoveKey). */
module Timeline {

  /** Tolerance of every float comparison in the core (FloatPrecision). */
  const Eps: real := 0.001

  /** Utilities.FloatsEqual(a, b, Eps): |a - b| < Eps. */
  predicate FloatsEqual(a: real, b: real) {
    -Eps < a - b < Eps
  }

  datatype Timed<V> = Timed(time: real, data: V)

  function Times<V>(s: seq<Timed<V>>): (r: seq<real>)
    ensures |r| == |s|
    ensures forall i :: 0 <= i < |s| ==> r[i] == s[i].time
  {
    seq(|s|, i requires 0 <= i < |s| => s[i].time)
  }

  /** Strictly ascending times (no two entries share a time). */
  predicate Sorted<V>(s: seq<Timed<V>>) {
    forall i, j :: 0 <= i < j < |s| ==> s[i].time < s[j].time
  }

  /** Any two timestamps at least Eps apart: no timestamp has a neighbour
      that FloatsEqual would confuse it with. */
  predicate Separated(ts: seq<real>) {
    forall i, j :: 0 <= i < j < |ts| ==> ts[j] - ts[i] >= Eps
  }

  predicate HasTime<V>(s: seq<Timed<V>>, t: real) {
    exists i :: 0 <= i < |s| && s[i].time == t
  }

  lemma HasTimeIn<V>(s: seq<Timed<V>>, t: real)
    ensures HasTime(s, t) <==> t in Times(s)
  {
    if t in Times(s) {
      var i :| 0 <= i < |s| && Times(s)[i] == t;
      assert s[i].time == t;
    }
  }

  /** Whether some time in ts is within Eps of t. */
  predicate AnyWithin(ts: seq<real>, t: real) {
    exists i :: 0 <= i < |ts| && FloatsEqual(ts[i], t)
  }

  /** Number of leading entries strictly earlier than t: where an entry with
      time t goes. */
  function InsertPos<V>(s: seq<Timed<V>>, t: real): (p: nat)
    ensures p <= |s|
    ensures forall j :: 0 <= j < p ==> s[j].time < t
    ensures p < |s| ==> s[p].time >= t
  {
    if s == [] || s[0].time >= t then 0 else 1 + InsertPos(s[1..], t)
  }

  /** AddKey / CreateNewNode. */
  function Insert<V>(s: seq<Timed<V>>, e: Timed<V>): seq<Timed<V>> {
    if HasTime(s, e.time) then s
    else s[..InsertPos(s, e.time)] + [e] + s[InsertPos(s, e.time)..]
  }

  /** RemoveKey / RemoveNode. */
  function RemoveAt<V>(s: seq<Timed<V>>, i: nat): seq<Timed<V>>
    requires i < |s|
  {
    s[..i] + s[i + 1..]
  }

  /** MoveKey / ChangeNodeTimestamp: entry i gets time t. */
  function MoveTo<V>(s: seq<Timed<V>>, i: nat, t: real): (r: seq<Timed<V>>)
    requires i < |s|
    ensures |r| == |s|
  {
    if HasTime(RemoveAt(s, i), t) then s
    else Insert(RemoveAt(s, i), s[i].(time := t))
  }

  /** Entry i with its data replaced, time kept. */
  function SetData<V>(s: seq<Timed<V>>, i: nat, d: V): (r: seq<Timed<V>>)
    requires i < |s|
    ensures Times(r) == Times(s)
  {
    s[i := s[i].(data := d)]
  }

  // ---------------------------------------------------------------------
  // Insertion

  lemma InsertFresh<V>(s: seq<Timed<V>>, e: Timed<V>)
    requires !HasTime(s, e.time)
    ensures var p := InsertPos(s, e.time);
      Insert(s, e) == s[..p] + [e] + s[p..] && |Insert(s, e)| == |s| + 1 &&
      Insert(s, e)[p] == e &&
      (forall j :: 0 <= j < p ==> Insert(s, e)[j] == s[j]) &&
      (forall j :: p < j <= |s| ==> Insert(s, e)[j] == s[j - 1])
  {
  }

  lemma InsertFreshSorted<V>(s: seq<Timed<V>>, e: Timed<V>)
    requires Sorted(s) && !HasTime(s, e.time)
    ensures Sorted(Insert(s, e))
  {
    var p := InsertPos(s, e.time);
    var r := Insert(s, e);
    InsertFresh(s, e);
    forall j | p <= j < |s| ensures s[j].time > e.time {
      assert s[p].time <= s[j].time;
      assert s[j].time != e.time;
    }
    forall i, j | 0 <= i < j < |r| ensures r[i].time < r[j].time {
      var a := if i < p then s[i] else if i == p then e else s[i - 1];
      var b := if j < p then s[j] else if j == p then e else s[j - 1];
      assert r[i] == a && r[j] == b;
    }
  }

  lemma InsertFreshMultiset<V>(s: seq<Timed<V>>, e: Timed<V>)
    requires !HasTime(s, e.time)
    ensures multiset(Insert(s, e)) == multiset(s) + multiset{e} && e in Insert(s, e)
  {
    var p := InsertPos(s, e.time);
    InsertFresh(s, e);
    assert s == s[..p] + s[p..];
    calc {
      multiset(Insert(s, e));
      multiset(s[..p]) + multiset([e]) + multiset(s[p..]);
      multiset(s[..p] + s[p..]) + multiset{e};
      multiset(s) + multiset{e};
    }
  }

  /** Inserting keeps the entries sorted, adds exactly the new entry when its
      time is new, and changes nothing otherwise. */
  lemma InsertSorted<V>(s: seq<Timed<V>>, e: Timed<V>)
    requires Sorted(s)
    ensures Sorted(Insert(s, e))
    ensures HasTime(s, e.time) ==> Insert(s, e) == s
    ensures !HasTime(s, e.time) ==>
      multiset(Insert(s, e)) == multiset(s) + multiset{e} && e in Insert(s, e)
  {
    if !HasTime(s, e.time) {
      InsertFreshSorted(s, e);
      InsertFreshMultiset(s, e);
    }
  }

  /** The position of a time among sorted entries is determined by where it
      falls between neighbours. */
  lemma {:induction false} InsertPosAt<V>(s: seq<Timed<V>>, t: real, i: nat)
    requires i <= |s|
    requires forall j :: 0 <= j < i ==> s[j].time < t
    requires i < |s| ==> s[i].time >= t
    ensures InsertPos(s, t) == i
  {
    if i > 0 {
      InsertPosAt(s[1..], t, i - 1);
    }
  }

  /** Insertion only looks at times: two sequences with the same times get
      the new entry at the same place. */
  lemma InsertTimes<V, W>(s: seq<Timed<V>>, e: Timed<V>, s': seq<Timed<W>>, e': Timed<W>)
    requires Times(s) == Times(s') && e.time == e'.time
    ensures Times(Insert(s, e)) == Times(Insert(s', e'))
  {
    assert HasTime(s, e.time) <==> HasTime(s', e'.time) by {
      if HasTime(s, e.time) {
        var i :| 0 <= i < |s| && s[i].time == e.time;
        assert Times(s)[i] == s'[i].time;
      }
      if HasTime(s', e'.time) {
        var i :| 0 <= i < |s'| && s'[i].time == e'.time;
        assert Times(s')[i] == s[i].time;
      }
    }
    if !HasTime(s, e.time) {
      var p := InsertPos(s, e.time);
      forall j | 0 <= j < p ensures s'[j].time < e.time {
        assert Times(s)[j] == s'[j].time;
      }
      if p < |s| {
        assert Times(s)[p] == s'[p].time;
      }
      InsertPosAt(s', e'.time, p);
      InsertFresh(s, e);
      InsertFresh(s', e');
    }
  }

  /** An entry later than every other goes at the end. */
  lemma InsertLast<V>(s: seq<Timed<V>>, e: Timed<V>)
    requires forall j :: 0 <= j < |s| ==> s[j].time < e.time
    ensures Insert(s, e) == s + [e]
    ensures Times(s + [e]) == Times(s) + [e.time]
  {
    InsertPosAt(s, e.time, |s|);
    assert s[|s|..] == [];
    assert forall j :: 0 <= j < |s| ==> Times(s + [e])[j] == (Times(s) + [e.time])[j];
  }

  /** Sortedness depends on the times alone. */
  lemma SortedByTimes<V, W>(a: seq<Timed<V>>, b: seq<Timed<W>>)
    requires Sorted(a) && Times(a) == Times(b)
    ensures Sorted(b)
  {
    forall i, j | 0 <= i < j < |b| ensures b[i].time < b[j].time {
      assert Times(a)[i] == Times(b)[i] && Times(a)[j] == Times(b)[j];
    }
  }

  /** Replacing an entry by one with the same time keeps the times. */
  lemma PutSameTime<V>(s: seq<Timed<V>>, i: nat, e: Timed<V>)
    requires i < |s| && e.time == s[i].time
    ensures Times(s[i := e]) == Times(s)
  {
    assert forall j :: 0 <= j < |s| ==> Times(s[i := e])[j] == Times(s)[j];
  }

  // ---------------------------------------------------------------------
  // Removal and moving

  lemma RemoveAtSorted<V>(s: seq<Timed<V>>, i: nat)
    requires Sorted(s) && i < |s|
    ensures Sorted(RemoveAt(s, i))
    ensures |RemoveAt(s, i)| == |s| - 1
    ensures forall j :: 0 <= j < |s| - 1 ==> RemoveAt(s, i)[j] == if j < i then s[j] else s[j + 1]
  {
    var r := RemoveAt(s, i);
    forall a, b | 0 <= a < b < |r| ensures r[a].time < r[b].time {
      var a' := if a < i then a else a + 1;
      var b' := if b < i then b else b + 1;
      assert r[a] == s[a'] && r[b] == s[b'];
    }
  }

  lemma RemoveAtTimes<V, W>(s: seq<Timed<V>>, s': seq<Timed<W>>, i: nat)
    requires Times(s) == Times(s') && i < |s|
    ensures Times(RemoveAt(s, i)) == Times(RemoveAt(s', i))
  {
    var r, r' := RemoveAt(s, i), RemoveAt(s', i);
    forall j | 0 <= j < |r| ensures r[j].time == r'[j].time {
      var k := if j < i then j else j + 1;
      assert r[j] == s[k] && r'[j] == s'[k];
      assert Times(s)[k] == Times(s')[k];
    }
  }

  lemma RemoveAtSeparated(ts: seq<real>, i: nat)
    requires Separated(ts) && i < |ts|
    ensures Separated(ts[..i] + ts[i + 1..])
  {
    var r := ts[..i] + ts[i + 1..];
    forall a, b | 0 <= a < b < |r| ensures r[b] - r[a] >= Eps {
      var a' := if a < i then a else a + 1;
      var b' := if b < i then b else b + 1;
      assert r[a] == ts[a'] && r[b] == ts[b'];
    }
  }

  /** Moving keeps the entries sorted and their number unchanged. */
  lemma MoveToSorted<V>(s: seq<Timed<V>>, i: nat, t: real)
    requires Sorted(s) && i < |s|
    ensures Sorted(MoveTo(s, i, t)) && |MoveTo(s, i, t)| == |s|
  {
    RemoveAtSorted(s, i);
    if !HasTime(RemoveAt(s, i), t) {
      InsertSorted(RemoveAt(s, i), s[i].(time := t));
      InsertFresh(RemoveAt(s, i), s[i].(time := t));
    }
  }

  /** Entry i, taken out and given a time between its neighbours', goes
      back at index i. */
  lemma ReinsertPos<V>(s: seq<Timed<V>>, i: nat, t: real)
    requires Sorted(s) && i < |s|
    requires i > 0 ==> s[i - 1].time < t
    requires i + 1 < |s| ==> t < s[i + 1].time
    ensures !HasTime(RemoveAt(s, i), t) && InsertPos(RemoveAt(s, i), t) == i
  {
    var r := RemoveAt(s, i);
    RemoveAtSorted(s, i);
    forall j | 0 <= j < i ensures r[j].time < t {
      assert r[j].time <= s[i - 1].time;
    }
    forall j | i <= j < |r| ensures r[j].time > t {
      assert r[j] == s[j + 1];
      assert s[i + 1].time <= s[j + 1].time;
    }
    InsertPosAt(r, t, i);
  }

  /** Replacing entry i is removing it and putting the new entry at i. */
  lemma RemoveThenPut<V>(s: seq<Timed<V>>, i: nat, e: Timed<V>)
    requires i < |s|
    ensures RemoveAt(s, i)[..i] + [e] + RemoveAt(s, i)[i..] == s[i := e]
  {
    var r := RemoveAt(s, i);
    assert r[..i] == s[..i] && r[i..] == s[i + 1..];
  }

  lemma ReinsertInPlace<V>(s: seq<Timed<V>>, i: nat, e: Timed<V>)
    requires Sorted(s) && i < |s|
    requires i > 0 ==> s[i - 1].time < e.time
    requires i + 1 < |s| ==> e.time < s[i + 1].time
    ensures !HasTime(RemoveAt(s, i), e.time)
    ensures Insert(RemoveAt(s, i), e) == s[i := e]
  {
    ReinsertPos(s, i, e.time);
    RemoveThenPut(s, i, e);
  }

  lemma MoveInPlace<V>(s: seq<Timed<V>>, i: nat, t: real)
    requires Sorted(s) && i < |s|
    requires i > 0 ==> s[i - 1].time < t
    requires i + 1 < |s| ==> t < s[i + 1].time
    ensures MoveTo(s, i, t) == s[i := s[i].(time := t)]
  {
    ReinsertInPlace(s, i, s[i].(time := t));
  }

  /** Moving an interior entry of a sorted sequence to a time inside the
      closed range spanned by the first and last entries never displaces
      either of them. */
  lemma MoveKeepsEnds<V>(s: seq<Timed<V>>, i: nat, t: real)
    requires Sorted(s) && 0 < i < |s| - 1
    requires s[0].time <= t <= s[|s| - 1].time
    ensures var r := MoveTo(s, i, t); |r| == |s| && r[0] == s[0] && r[|s| - 1] == s[|s| - 1]
  {
    var r := RemoveAt(s, i);
    RemoveAtSorted(s, i);
    MoveToSorted(s, i, t);
    if !HasTime(r, t) {
      var e := s[i].(time := t);
      var p := InsertPos(r, t);
      assert r[0] == s[0];
      assert r[|r| - 1] == s[|s| - 1];
      assert r[0].time != t && r[|r| - 1].time != t;
      assert r[0].time < t < r[|r| - 1].time;
      assert 1 <= p <= |r| - 1;
      InsertFresh(r, e);
    }
  }

  // ---------------------------------------------------------------------
  // Retiming entries one after another

  /** Entries before index i take their times from nt; the rest keep theirs. */
  function Retarget<V>(s: seq<Timed<V>>, nt: seq<real>, i: nat): (r: seq<Timed<V>>)
    requires |nt| == |s|
    ensures |r| == |s|
    ensures forall j :: 0 <= j < |s| ==> r[j] == if j < i then s[j].(time := nt[j]) else s[j]
  {
    seq(|s|, j requires 0 <= j < |s| => if j < i then s[j].(time := nt[j]) else s[j])
  }

  /** New times nt that are strictly increasing and each below every later
      entry's old time: moving the entries one by one in index order never
      makes an entry overtake a neighbour. */
  predicate NoOvertake<V>(s: seq<Timed<V>>, nt: seq<real>)
    requires |nt| == |s|
  {
    forall a, b :: 0 <= a < b < |s| ==> nt[a] < nt[b] && nt[a] < s[b].time
  }

  /** Under NoOvertake, moving entry i of a partly retimed sequence to nt[i]
      is the in-place update that extends the retimed prefix by one. */
  lemma RetargetStep<V>(s: seq<Timed<V>>, nt: seq<real>, i: nat)
    requires |nt| == |s| && Sorted(s) && NoOvertake(s, nt) && 0 < i < |s| - 1
    ensures Sorted(Retarget(s, nt, i))
    ensures MoveTo(Retarget(s, nt, i), i, nt[i]) == Retarget(s, nt, i + 1)
  {
    var st := Retarget(s, nt, i);
    forall a, b | 0 <= a < b < |st| ensures st[a].time < st[b].time {
      if b < i {
      } else if a < i {
        assert st[a].time == nt[a] < s[b].time;
      }
    }
    MoveInPlace(st, i, nt[i]);
    assert st[i := st[i].(time := nt[i])] == Retarget(s, nt, i + 1);
  }

  /** Retargeting to the times the entries already have changes nothing. */
  lemma RetargetSame<V>(s: seq<Timed<V>>, nt: seq<real>, i: nat, k: nat)
    requires |nt| == |s| && k <= i
    requires forall j :: k <= j < i && j < |s| ==> nt[j] == s[j].time
    ensures Retarget(s, nt, i) == Retarget(s, nt, k)
  {
    assert forall j :: 0 <= j < |s| ==> Retarget(s, nt, i)[j] == Retarget(s, nt, k)[j];
  }
}
