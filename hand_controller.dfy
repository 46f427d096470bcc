/** The hand controller: turns each tracked hand of a sensor frame into a
    pinch (a point in simulation space and a strength) through an affine map
    `scale * tip + translation`. */
module Hands {
  import opened Vectors

  /** A `Leap::Vector` as the sensor reports it. */
  datatype LeapVector = LeapVector(x: real, y: real, z: real)

  /** One tracked hand: its pinch strength and the tip position of each of its
      fingers, thumb first. */
  datatype Hand = Hand(pinchStrength: real, fingerTips: seq<LeapVector>)

  /** `fingers()[1]`: the index finger. */
  const INDEX_FINGER: nat := 1

  /** One entry of a `pinch_list`. */
  datatype Pinch = Pinch(position: Vec3, strength: real)

  /** The sensor reports every finger of a hand, so the index finger exists. */
  predicate WellFormed(frame: seq<Hand>) {
    forall k :: 0 <= k < |frame| ==> INDEX_FINGER < |frame[k].fingerTips|
  }

  /** `ToVec3f`: copies the three coordinates. */
  function ToVec3f(v: LeapVector): (r: Vec3)
    ensures r.x == v.x && r.y == v.y && r.z == v.z
  {
    Vec3(v.x, v.y, v.z)
  }

  class HandController {
    var translation: Vec3
    var scale: real

    /** Scale 1 and Cinder's default (zero) translation. */
    constructor ()
      ensures scale == 1.0 && translation == Zero
    {
      scale := 1.0;
      translation := Zero;
    }

    method SetScale(s: real)
      modifies this`scale
      ensures scale == s && translation == old(translation)
    {
      scale := s;
    }

    method SetTranslation(t: Vec3)
      modifies this`translation
      ensures translation == t && scale == old(scale)
    {
      translation := t;
    }

    /** The pinch list for `frame`: one entry per hand, in hand order, at the
        mapped index-finger tip and with the hand's own strength. */
    ghost predicate Mapped(frame: seq<Hand>, pinches: seq<Pinch>)
      reads this
      requires WellFormed(frame)
    {
      |pinches| == |frame| &&
      forall k :: 0 <= k < |frame| ==>
        pinches[k].position == Add(Scale(scale, ToVec3f(frame[k].fingerTips[INDEX_FINGER])), translation) &&
        pinches[k].strength == frame[k].pinchStrength
    }

    /** `getPinches`, with the sensor's current frame passed in. */
    method GetPinches(frame: seq<Hand>) returns (pinches: seq<Pinch>)
      requires WellFormed(frame)
      ensures Mapped(frame, pinches)
    {
      pinches := [];
      var i := 0;
      while i < |frame|
        invariant 0 <= i <= |frame| && |pinches| == i
        invariant forall k :: 0 <= k < i ==>
          pinches[k].position == Add(Scale(scale, ToVec3f(frame[k].fingerTips[INDEX_FINGER])), translation) &&
          pinches[k].strength == frame[k].pinchStrength
      {
        var pinchStrength := frame[i].pinchStrength;
        var tip := frame[i].fingerTips[INDEX_FINGER];
        var transformedTip := Add(Scale(scale, ToVec3f(tip)), translation);
        pinches := pinches + [Pinch(transformedTip, pinchStrength)];
        i := i + 1;
      }
    }
  }
}
