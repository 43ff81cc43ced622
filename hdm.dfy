/**
 * The sensor buffer (`Hdm`): every measurement is converted into an
 * `Update` and kept in a double-ended queue. Updates are pushed at the
 * front and popped from the front, so the buffer is a stack: the update
 * read next is always the one added last.
 */
module Hdm {

  import Wrappers
  import opened HardwareDataManager
  import HardwareMessageDecoder

  /** `std::f64::consts::PI`, the exact value of the double nearest to pi. */
  const PI: real := 3.141592653589793115997963468544185161590576171875

  /** The update built from a measurement: antenna to tag, angles in radians. */
  function ToUpdate(e: HardwareMessageDecoder.UudfEvent): (u: Update)
    ensures KeyOf(u) == (e.anchorId, e.tagId)
    ensures (u.azm > 0.0 <==> e.angle1 > 0) && (u.elv > 0.0 <==> e.angle2 > 0)
  {
    Update(e.anchorId, e.tagId, e.angle2 as real * (PI / 180.0), e.angle1 as real * (PI / 180.0))
  }

  /**
   * The conversion turns the first angle into the azimuth and the second
   * into the elevation, degrees into radians: multiplying back by 180/pi
   * recovers the degrees, and a half-turn stays within pi.
   */
  lemma ToUpdateConverts(e: HardwareMessageDecoder.UudfEvent)
    ensures ToUpdate(e).azm * (180.0 / PI) == e.angle1 as real
    ensures ToUpdate(e).elv * (180.0 / PI) == e.angle2 as real
    ensures -180 <= e.angle1 <= 180 ==> -PI <= ToUpdate(e).azm <= PI
    ensures -180 <= e.angle2 <= 180 ==> -PI <= ToUpdate(e).elv <= PI
  {
  }

  /** `VecDeque::push_front` on the buffer's contents (front first). */
  function PushFront(q: seq<Update>, u: Update): (r: seq<Update>)
    ensures |r| == |q| + 1 && r[0] == u && r[1..] == q
  {
    [u] + q
  }

  /** `VecDeque::pop_front`: the front element and what remains, or None. */
  function PopFront(q: seq<Update>): (r: (Wrappers.Option<Update>, seq<Update>))
    ensures r.0.None? <==> q == []
    ensures r.0.Some? ==> [r.0.value] + r.1 == q
    ensures r.0.None? ==> r.1 == []
  {
    if q == [] then (Wrappers.None, []) else (Wrappers.Some(q[0]), q[1..])
  }

  /** The buffer after adding the updates of `us` one after another. */
  function AddAll(q: seq<Update>, us: seq<Update>): seq<Update>
    decreases |us|
  {
    if us == [] then q else AddAll(PushFront(q, us[0]), us[1..])
  }

  function Reversed(us: seq<Update>): (r: seq<Update>)
    ensures |r| == |us|
  {
    if us == [] then [] else Reversed(us[1..]) + [us[0]]
  }

  lemma {:induction false} ReversedIndex(us: seq<Update>, i: nat)
    requires i < |us|
    ensures Reversed(us)[i] == us[|us| - 1 - i]
  {
    var r := Reversed(us[1..]);
    assert Reversed(us) == r + [us[0]];
    if i < |us| - 1 {
      ReversedIndex(us[1..], i);
      assert Reversed(us)[i] == r[i];
    }
  }

  /** Popping right after a push gives back the pushed update and the old buffer. */
  lemma LastInFirstOut(q: seq<Update>, u: Update)
    ensures PopFront(PushFront(q, u)) == (Wrappers.Some(u), q)
  {
  }

  /**
   * Adding a series of updates puts them in front of the old contents in
   * reverse order: the buffer hands them out newest first.
   */
  lemma {:induction false} AddAllReverses(q: seq<Update>, us: seq<Update>)
    ensures AddAll(q, us) == Reversed(us) + q
    decreases |us|
  {
    if us != [] {
      AddAllReverses(PushFront(q, us[0]), us[1..]);
      assert [us[0]] + q == PushFront(q, us[0]);
      assert Reversed(us) == Reversed(us[1..]) + [us[0]];
    }
  }

  /** The buffer; `msgs` lists its contents front first. */
  class Hdm {
    var msgs: seq<Update>

    constructor ()
      ensures msgs == []
    {
      msgs := [];
    }

    method AddUpdate(event: HardwareMessageDecoder.UudfEvent)
      modifies this
      ensures msgs == PushFront(old(msgs), ToUpdate(event))
    {
      msgs := [ToUpdate(event)] + msgs;
    }

    /** `Iterator::next`: pops the front update, None once the buffer is empty. */
    method Next() returns (r: Wrappers.Option<Update>)
      modifies this
      ensures (r, msgs) == PopFront(old(msgs))
      ensures r.None? <==> old(msgs) == []
      ensures r.Some? ==> |msgs| == |old(msgs)| - 1
    {
      if msgs == [] {
        r := Wrappers.None;
      } else {
        r := Wrappers.Some(msgs[0]);
        msgs := msgs[1..];
      }
    }

    method Clear()
      modifies this
      ensures msgs == []
    {
      msgs := [];
    }
  }

  /** Reading the buffer right after adding a measurement returns that measurement's update. */
  method AddThenNext(h: Hdm, e: HardwareMessageDecoder.UudfEvent) returns (r: Wrappers.Option<Update>)
    modifies h
    ensures r == Wrappers.Some(ToUpdate(e))
    ensures h.msgs == old(h.msgs)
  {
    h.AddUpdate(e);
    r := h.Next();
  }

  /** Reading a cleared buffer returns None. */
  method ClearThenNext(h: Hdm) returns (r: Wrappers.Option<Update>)
    modifies h
    ensures r == Wrappers.None && h.msgs == []
  {
    h.Clear();
    r := h.Next();
  }
}
