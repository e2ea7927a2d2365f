/**
 * The roll/settle state machine: a throw arms the "awaiting result" flag,
 * every frame recomputes whether any die is still moving, and the first
 * frame that finds the dice at rest while a result is awaited publishes the
 * total once and disarms the flag.
 */
module Session {
  import opened Wrappers
  import opened Geometry
  import opened Dice
  import opened Resolver

  /** Both speeds must reach this bound for a die to count as moving. */
  const SettleSpeed: real := 0.05

  /** A die moves only when it is both travelling and spinning at or above the bound. */
  predicate IsMoving(b: BodyState): (m: bool)
    ensures m ==> b.linearSpeed > 0.0 && b.angularSpeed > 0.0
    ensures b.linearSpeed < SettleSpeed || b.angularSpeed < SettleSpeed ==> !m
  {
    b.linearSpeed >= SettleSpeed && b.angularSpeed >= SettleSpeed
  }

  /** The roll is moving when at least one die is. */
  function AnyMoving(states: seq<BodyState>): (m: bool)
    ensures m <==> exists i :: 0 <= i < |states| && IsMoving(states[i])
    decreases |states|
  {
    if |states| == 0 then false
    else
      var n := |states| - 1;
      assert forall i :: 0 <= i < n ==> states[..n][i] == states[i];
      AnyMoving(states[..n]) || IsMoving(states[n])
  }

  /**
   * How many dice the motion scan gets through: it reads each die's body, so
   * it stops, by throwing, at the first die without one.
   */
  function BodiedPrefix(dices: seq<Die>): (k: nat)
    ensures k <= |dices|
    ensures forall j :: 0 <= j < k ==> dices[j].body.Some?
    ensures k < |dices| ==> dices[k].body.None?
    decreases |dices|
  {
    if |dices| == 0 || dices[0].body.None? then 0
    else 1 + BodiedPrefix(dices[1..])
  }

  /** The scan throws exactly when some die lacks a body. */
  lemma ScanCrashesIffBodiless(dices: seq<Die>)
    ensures BodiedPrefix(dices) == |dices| <==> AllBodied(dices)
  {
  }

  /** The flags and the published results of one scene. */
  datatype SessionState = SessionState(gettingResult: bool, isMoving: bool, published: seq<int>)

  /** Before the first throw nothing is awaited (the flag starts undefined) and nothing is published. */
  const Initial: SessionState := SessionState(false, false, [])

  /** A throw awaits a result only if every die has a body. */
  function AfterRoll(s: SessionState, dices: seq<Die>): (t: SessionState)
    ensures t.published == s.published && t.isMoving == s.isMoving
    ensures t.gettingResult <==> CountBodied(dices) == |dices|
  {
    s.(gettingResult := AllBodied(dices))
  }

  /**
   * One frame's settlement step. The motion flag is recomputed from scratch;
   * when the scan throws, the frame ends there and the flag keeps what the
   * dice before the bodiless one gave it.
   */
  function AfterFrame(s: SessionState, dices: seq<Die>, states: seq<BodyState>): (t: SessionState)
    requires |states| == |dices|
    ensures t.published == s.published || (AllBodied(dices) && t.published == s.published + [Resolve(dices, states)])
    ensures t.gettingResult ==> s.gettingResult
    ensures t.published != s.published ==> !t.gettingResult && !t.isMoving
  {
    ScanCrashesIffBodiless(dices);
    var k := BodiedPrefix(dices);
    var moving := AnyMoving(states[..k]);
    if k < |dices| then s.(isMoving := moving)
    else if s.gettingResult && !moving then SessionState(false, false, s.published + [Resolve(dices, states)])
    else s.(isMoving := moving)
  }

  /** The motion flag from the previous frame has no bearing on the next one. */
  lemma MotionFlagIsRecomputed(s: SessionState, dices: seq<Die>, states: seq<BodyState>, stale: bool)
    requires |states| == |dices|
    ensures AfterFrame(s.(isMoving := stale), dices, states) == AfterFrame(s, dices, states)
    ensures AllBodied(dices) ==> AfterFrame(s, dices, states).isMoving == AnyMoving(states)
  {
    ScanCrashesIffBodiless(dices);
    assert states[..|states|] == states;
  }

  /**
   * A frame that finds every die at rest while a result is awaited publishes
   * the resolver's total once and stops awaiting.
   */
  lemma SettledFramePublishes(s: SessionState, dices: seq<Die>, states: seq<BodyState>)
    requires |states| == |dices| && AllBodied(dices)
    requires s.gettingResult
    requires forall i :: 0 <= i < |states| ==> !IsMoving(states[i])
    ensures AfterFrame(s, dices, states) == SessionState(false, false, s.published + [Resolve(dices, states)])
  {
    ScanCrashesIffBodiless(dices);
    assert states[..|states|] == states;
  }

  /** While some die still moves, a frame publishes nothing and the result stays awaited. */
  lemma MovingFrameWaits(s: SessionState, dices: seq<Die>, states: seq<BodyState>, i: nat)
    requires |states| == |dices| && AllBodied(dices)
    requires i < |states| && IsMoving(states[i])
    ensures AfterFrame(s, dices, states) == s.(isMoving := true)
  {
    ScanCrashesIffBodiless(dices);
    assert states[..|states|] == states;
  }

  /**
   * A frame publishes at most one value, only when a result was awaited, and
   * then no longer awaits one; the value published is the total of all the
   * dice, between N and 6 N for N dice.
   */
  lemma FramePublishesAtMostOnce(s: SessionState, dices: seq<Die>, states: seq<BodyState>)
    requires |states| == |dices|
    ensures var t := AfterFrame(s, dices, states);
      s.published <= t.published && |t.published| <= |s.published| + 1 &&
      (|t.published| > |s.published| ==>
        s.gettingResult && !t.gettingResult && AllBodied(dices) &&
        |dices| <= t.published[|s.published|] <= 6 * |dices|) &&
      (|t.published| == |s.published| ==> t.gettingResult == s.gettingResult)
  {
    var t := AfterFrame(s, dices, states);
    if |t.published| > |s.published| {
      ScanCrashesIffBodiless(dices);
      ResolveBounds(dices, states);
    }
  }

  /** One frame's input: the dice as the frame finds them and what the engine reports for each. */
  datatype FrameInput = FrameInput(dices: seq<Die>, states: seq<BodyState>)

  predicate WellFormed(f: FrameInput) {
    |f.states| == |f.dices|
  }

  /** The state after a run of frames with no throw in between. */
  function RunFrames(s: SessionState, frames: seq<FrameInput>): (t: SessionState)
    requires forall i :: 0 <= i < |frames| ==> WellFormed(frames[i])
    ensures s.published <= t.published
    ensures t.gettingResult ==> s.gettingResult
    decreases |frames|
  {
    if |frames| == 0 then s
    else
      assert WellFormed(frames[0]);
      RunFrames(AfterFrame(s, frames[0].dices, frames[0].states), frames[1..])
  }

  /** Without an awaited result, no number of frames publishes anything. */
  lemma {:induction false} NoRollNoPublish(s: SessionState, frames: seq<FrameInput>)
    requires forall i :: 0 <= i < |frames| ==> WellFormed(frames[i])
    requires !s.gettingResult
    ensures RunFrames(s, frames).published == s.published
    ensures !RunFrames(s, frames).gettingResult
    decreases |frames|
  {
    if |frames| > 0 {
      assert WellFormed(frames[0]);
      FramePublishesAtMostOnce(s, frames[0].dices, frames[0].states);
      NoRollNoPublish(AfterFrame(s, frames[0].dices, frames[0].states), frames[1..]);
    }
  }

  /** Between two throws at most one result is published, appended after the earlier ones. */
  lemma {:induction false} OnePublicationPerRoll(s: SessionState, frames: seq<FrameInput>)
    requires forall i :: 0 <= i < |frames| ==> WellFormed(frames[i])
    ensures s.published <= RunFrames(s, frames).published
    ensures |RunFrames(s, frames).published| <= |s.published| + (if s.gettingResult then 1 else 0)
    decreases |frames|
  {
    if |frames| > 0 {
      assert WellFormed(frames[0]);
      var t := AfterFrame(s, frames[0].dices, frames[0].states);
      FramePublishesAtMostOnce(s, frames[0].dices, frames[0].states);
      OnePublicationPerRoll(t, frames[1..]);
      if |t.published| > |s.published| {
        NoRollNoPublish(t, frames[1..]);
      }
    }
  }

  /** Nothing is published before the first throw. */
  lemma NothingBeforeFirstRoll(frames: seq<FrameInput>)
    requires forall i :: 0 <= i < |frames| ==> WellFormed(frames[i])
    ensures RunFrames(Initial, frames).published == []
  {
    NoRollNoPublish(Initial, frames);
  }

  /** A throw over a collection with a bodiless die never yields a result. */
  lemma IncompleteRollNeverPublishes(s: SessionState, dices: seq<Die>, frames: seq<FrameInput>)
    requires forall i :: 0 <= i < |frames| ==> WellFormed(frames[i])
    requires !AllBodied(dices)
    ensures RunFrames(AfterRoll(s, dices), frames).published == s.published
  {
    NoRollNoPublish(AfterRoll(s, dices), frames);
  }

  /** A throw followed by a frame with every die at rest publishes the total of the dice. */
  lemma RollThenSettlePublishes(s: SessionState, dices: seq<Die>, states: seq<BodyState>)
    requires |states| == |dices| && AllBodied(dices)
    requires forall i :: 0 <= i < |states| ==> !IsMoving(states[i])
    ensures AfterFrame(AfterRoll(s, dices), dices, states).published == s.published + [Resolve(dices, states)]
    ensures !AfterFrame(AfterRoll(s, dices), dices, states).gettingResult
  {
    SettledFramePublishes(AfterRoll(s, dices), dices, states);
  }

  /** Seven draws from the random source, in the order a throw consumes them. */
  datatype Draw = Draw(vx: real, vz: real, px: real, pz: real, sx: real, sy: real, sz: real)

  /** Each draw of `Math.random()` lies in [0, 1). */
  predicate ValidDraw(d: Draw) {
    0.0 <= d.vx < 1.0 && 0.0 <= d.vz < 1.0 && 0.0 <= d.px < 1.0 && 0.0 <= d.pz < 1.0 &&
    0.0 <= d.sx < 1.0 && 0.0 <= d.sy < 1.0 && 0.0 <= d.sz < 1.0
  }

  /** The velocity, position and spin a throw gives one body. */
  datatype Kick = Kick(velocity: Vec3, position: Vec3, spin: Vec3)

  /**
   * A throw lifts the body at speed 5 with horizontal jitter below 0.5 either
   * way, drops it in from height 3 within 2 of the centre, and spins it
   * forward about every axis at less than 10.
   */
  function KickOf(d: Draw): (k: Kick)
    ensures ValidDraw(d) ==>
      k.velocity.y == 5.0 && -0.5 <= k.velocity.x < 0.5 && -0.5 <= k.velocity.z < 0.5 &&
      k.position.y == 3.0 && -2.0 <= k.position.x < 2.0 && -2.0 <= k.position.z < 2.0 &&
      0.0 <= k.spin.x < 10.0 && 0.0 <= k.spin.y < 10.0 && 0.0 <= k.spin.z < 10.0
  {
    Kick(Vec3(d.vx - 0.5, 5.0, d.vz - 0.5),
         Vec3(d.px * 4.0 - 2.0, 3.0, d.pz * 4.0 - 2.0),
         Vec3(d.sx * 10.0, d.sy * 10.0, d.sz * 10.0))
  }
}
