/** BaseWriter.sequence_axis_order and BaseWriter.event_to_index: which axes a run
    is indexed by, and how an event is projected onto them. */
module Axes {
  import opened Acquisition

  /** The letters of `order`, in order, that are keys in `keys`: the comprehension
      `tuple(a for a in order if a in keys)`. */
  function KeepPresent(order: string, keys: set<char>): (r: string)
    ensures |r| <= |order|
    ensures forall c :: c in r <==> c in order && c in keys
  {
    if order == [] then []
    else (if order[0] in keys then [order[0]] else []) + KeepPresent(order[1..], keys)
  }

  /** Every axis of `order` is a key of the index (otherwise event.index[a] raises
      KeyError). */
  predicate HasAxes(order: string, index: map<char, nat>) {
    forall k :: 0 <= k < |order| ==> order[k] in index
  }

  /** The axis order of a run: the declared axes, in declared order, that the first
      event's index carries. The sequence must emit at least one event (next()
      raises StopIteration on an empty one). */
  function SequenceAxisOrder(s: Sequence): (r: string)
    requires |s.events| > 0
    ensures forall c :: c in r <==> c in s.axisOrder && c in s.events[0].index
    ensures HasAxes(r, s.events[0].index)
  {
    KeepPresent(s.axisOrder, s.events[0].index.Keys)
  }

  /** The storage coordinate of an event: its index value for each axis of the
      order, in that order. */
  function EventToIndex(order: string, index: map<char, nat>): (r: seq<nat>)
    requires HasAxes(order, index)
    ensures |r| == |order|
    ensures forall k :: 0 <= k < |order| ==> r[k] == index[order[k]]
  {
    seq(|order|, k requires 0 <= k < |order| => index[order[k]])
  }

  /** The positions, counted from `offset`, of the letters of `order` that are
      keys: the positions KeepPresent keeps. */
  function KeptPositions(order: string, keys: set<char>, offset: nat): seq<nat> {
    if order == [] then []
    else (if order[0] in keys then [offset] else []) + KeptPositions(order[1..], keys, offset + 1)
  }

  /** The k-th kept axis is the declared axis at the k-th kept position. */
  lemma {:induction false} KeptPositionsSelect(order: string, keys: set<char>, offset: nat)
    ensures |KeptPositions(order, keys, offset)| == |KeepPresent(order, keys)|
    ensures forall k :: 0 <= k < |KeepPresent(order, keys)| ==>
              offset <= KeptPositions(order, keys, offset)[k] < offset + |order|
              && KeepPresent(order, keys)[k] == order[KeptPositions(order, keys, offset)[k] - offset]
  {
    if order != [] {
      KeptPositionsSelect(order[1..], keys, offset + 1);
      var ix, ix' := KeptPositions(order, keys, offset), KeptPositions(order[1..], keys, offset + 1);
      var r, r' := KeepPresent(order, keys), KeepPresent(order[1..], keys);
      var h := if order[0] in keys then 1 else 0;
      assert ix == (if order[0] in keys then [offset] else []) + ix';
      assert r == (if order[0] in keys then [order[0]] else []) + r';
      forall k | 0 <= k < |r|
        ensures offset <= ix[k] < offset + |order| && r[k] == order[ix[k] - offset]
      {
        if k >= h {
          assert ix[k] == ix'[k - h] && r[k] == r'[k - h];
          assert order[1..][ix'[k - h] - (offset + 1)] == order[ix[k] - offset];
        }
      }
    }
  }

  /** The kept positions strictly increase. */
  lemma {:induction false} KeptPositionsIncrease(order: string, keys: set<char>, offset: nat)
    ensures forall k :: 0 <= k < |KeptPositions(order, keys, offset)| ==> offset <= KeptPositions(order, keys, offset)[k]
    ensures forall k, l :: 0 <= k < l < |KeptPositions(order, keys, offset)| ==>
              KeptPositions(order, keys, offset)[k] < KeptPositions(order, keys, offset)[l]
  {
    if order != [] {
      KeptPositionsIncrease(order[1..], keys, offset + 1);
      var ix, ix' := KeptPositions(order, keys, offset), KeptPositions(order[1..], keys, offset + 1);
      assert ix == (if order[0] in keys then [offset] else []) + ix';
    }
  }

  /** Every declared position whose axis is a key is kept. */
  lemma {:induction false} KeptPositionsComplete(order: string, keys: set<char>, offset: nat)
    ensures forall j :: 0 <= j < |order| && order[j] in keys ==> offset + j in KeptPositions(order, keys, offset)
  {
    if order != [] {
      KeptPositionsComplete(order[1..], keys, offset + 1);
      var ix, ix' := KeptPositions(order, keys, offset), KeptPositions(order[1..], keys, offset + 1);
      assert ix == (if order[0] in keys then [offset] else []) + ix';
      forall j | 0 <= j < |order| && order[j] in keys ensures offset + j in ix {
        if j > 0 {
          assert order[1..][j - 1] == order[j];
          assert offset + j in ix';
        }
      }
    }
  }

  /** The axis order is an order-preserving selection from the declared order: the
      k-th kept axis is the declared axis at position ix[k], the positions strictly
      increase, and every declared position whose axis is a key is among them. */
  lemma AxisOrderIsSelection(order: string, keys: set<char>) returns (ix: seq<nat>)
    ensures |ix| == |KeepPresent(order, keys)|
    ensures forall k :: 0 <= k < |ix| ==> ix[k] < |order| && KeepPresent(order, keys)[k] == order[ix[k]]
    ensures forall k, l :: 0 <= k < l < |ix| ==> ix[k] < ix[l]
    ensures forall j :: 0 <= j < |order| && order[j] in keys ==> j in ix
  {
    ix := KeptPositions(order, keys, 0);
    KeptPositionsSelect(order, keys, 0);
    KeptPositionsIncrease(order, keys, 0);
    KeptPositionsComplete(order, keys, 0);
  }

  /** Two events get the same coordinate exactly when their indices agree on every
      axis of the order. */
  lemma SameCoordinateIff(order: string, i1: map<char, nat>, i2: map<char, nat>)
    requires HasAxes(order, i1) && HasAxes(order, i2)
    ensures EventToIndex(order, i1) == EventToIndex(order, i2)
            <==> forall k :: 0 <= k < |order| ==> i1[order[k]] == i2[order[k]]
  {
    if forall k :: 0 <= k < |order| ==> i1[order[k]] == i2[order[k]] {
      assert EventToIndex(order, i1) == EventToIndex(order, i2);
    }
    if EventToIndex(order, i1) == EventToIndex(order, i2) {
      forall k | 0 <= k < |order| ensures i1[order[k]] == i2[order[k]] {
        assert EventToIndex(order, i1)[k] == EventToIndex(order, i2)[k];
      }
    }
  }
}
