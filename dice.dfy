/**
 * The collection of dice and the physics world they are registered in.
 * A die pairs a renderable mesh with a rigid body; either reference may be
 * missing. The world is the set of bodies the physics engine simulates:
 * registering a body twice has no effect, unregistering removes it.
 */
module Dice {
  import opened Wrappers
  import opened Geometry

  type MeshId = nat
  type BodyId = nat

  datatype Die = Die(mesh: Option<MeshId>, body: Option<BodyId>)

  /** What the physics engine reports for one body at the start of a frame. */
  datatype BodyState = BodyState(position: Vec3, orientation: Quaternion, linearSpeed: real, angularSpeed: real)

  /** The transform copied from a body onto its mesh. */
  datatype Pose = Pose(position: Vec3, orientation: Quaternion)

  /** Both references are present: the die is drawn and simulated. */
  predicate Complete(d: Die) {
    d.mesh.Some? && d.body.Some?
  }

  predicate AllBodied(dices: seq<Die>) {
    forall i :: 0 <= i < |dices| ==> dices[i].body.Some?
  }

  /** The number of dice that have a body. */
  function CountBodied(dices: seq<Die>): (n: nat)
    ensures n <= |dices|
    ensures n == |dices| <==> AllBodied(dices)
    decreases |dices|
  {
    if |dices| == 0 then 0
    else
      var k := |dices| - 1;
      assert AllBodied(dices) <==> AllBodied(dices[..k]) && dices[k].body.Some?;
      CountBodied(dices[..k]) + (if dices[k].body.Some? then 1 else 0)
  }

  /** No body belongs to two dice. */
  predicate BodiesDistinct(dices: seq<Die>) {
    forall i, j :: 0 <= i < j < |dices| && dices[i].body.Some? && dices[j].body.Some? ==>
      dices[i].body.value != dices[j].body.value
  }

  /**
   * The invariant the collection keeps with the world: every body of a die is
   * registered, and no body belongs to two dice. The world may hold other
   * bodies too (the floor, bodies whose die lost its mesh).
   */
  predicate Registered(dices: seq<Die>, world: set<BodyId>) {
    BodiesDistinct(dices) &&
    forall i :: 0 <= i < |dices| && dices[i].body.Some? ==> dices[i].body.value in world
  }

  /** The bodies the dice hold. */
  function BodySet(dices: seq<Die>): set<BodyId>
    decreases |dices|
  {
    if |dices| == 0 then {}
    else
      var k := |dices| - 1;
      BodySet(dices[..k]) + (if dices[k].body.Some? then {dices[k].body.value} else {})
  }

  lemma {:induction false} InBodySet(dices: seq<Die>, b: BodyId)
    ensures b in BodySet(dices) <==> exists i :: 0 <= i < |dices| && dices[i].body == Some(b)
    decreases |dices|
  {
    if |dices| > 0 {
      var k := |dices| - 1;
      InBodySet(dices[..k], b);
      if b in BodySet(dices[..k]) {
        var i :| 0 <= i < k && dices[..k][i].body == Some(b);
        assert dices[i].body == Some(b);
      }
      if i :| 0 <= i < |dices| && dices[i].body == Some(b) {
        if i < k { assert dices[..k][i].body == Some(b); }
      }
    }
  }

  /**
   * The scene start-up loop registers every loaded die's body; when the bodies
   * are distinct the collection is registered and the world holds exactly one
   * body per die.
   */
  lemma {:induction false} CreateRegistersEach(loaded: seq<Die>)
    requires AllBodied(loaded) && BodiesDistinct(loaded)
    ensures Registered(loaded, BodySet(loaded))
    ensures |BodySet(loaded)| == |loaded|
    decreases |loaded|
  {
    forall i | 0 <= i < |loaded| ensures loaded[i].body.value in BodySet(loaded) {
      InBodySet(loaded, loaded[i].body.value);
    }
    if |loaded| > 0 {
      var k := |loaded| - 1;
      var front := loaded[..k];
      CreateRegistersEach(front);
      var b := loaded[k].body.value;
      InBodySet(front, b);
      forall i | 0 <= i < k ensures front[i].body != Some(b) {
        assert front[i] == loaded[i];
      }
    }
  }

  /**
   * Start-up appends to the dice already held but builds a new world from the
   * loaded bodies alone: an earlier die whose body is not among them is left
   * unregistered.
   */
  lemma RestartStrandsEarlierDice(earlier: seq<Die>, loaded: seq<Die>, i: nat)
    requires i < |earlier| && earlier[i].body.Some? && earlier[i].body.value !in BodySet(loaded)
    ensures !Registered(earlier + loaded, BodySet(loaded))
  {
    assert (earlier + loaded)[i] == earlier[i];
  }

  /** The collection and the world together. */
  datatype Rig = Rig(dices: seq<Die>, world: set<BodyId>)

  datatype AddOutcome = Added | MissingBody | AlreadyInWorld

  datatype Addition = Addition(outcome: AddOutcome, rig: Rig)

  /** Adding a freshly loaded die: rejected when it has no body or its body is already simulated. */
  function AddDie(r: Rig, loaded: Die): (a: Addition)
    ensures a.outcome == MissingBody <==> loaded.body.None?
    ensures a.outcome != Added ==> a.rig == r
    ensures a.outcome == Added ==>
      |a.rig.dices| == |r.dices| + 1 && a.rig.dices[..|r.dices|] == r.dices && |a.rig.world| == |r.world| + 1
  {
    if loaded.body.None? then Addition(MissingBody, r)
    else if loaded.body.value in r.world then Addition(AlreadyInWorld, r)
    else Addition(Added, Rig(r.dices + [loaded], r.world + {loaded.body.value}))
  }

  /**
   * Taking away the last die. On an empty collection the engine reads a field
   * of `undefined` and throws: nothing changes. A complete die is unregistered
   * and both its references are cleared; an incomplete one is only dropped.
   */
  datatype Removal = NothingToPop | Popped(rig: Rig, die: Die)

  function RemoveDie(r: Rig): (rm: Removal)
    ensures rm.Popped? <==> |r.dices| > 0
    ensures rm.Popped? ==> rm.rig.dices == r.dices[..|r.dices| - 1] && rm.rig.world <= r.world
    ensures rm.Popped? ==> |r.world| - 1 <= |rm.rig.world|
    ensures rm.Popped? && rm.die.body.Some? ==> rm.rig.world == r.world
  {
    if |r.dices| == 0 then NothingToPop
    else
      var last := r.dices[|r.dices| - 1];
      var rest := r.dices[..|r.dices| - 1];
      if Complete(last) then Popped(Rig(rest, r.world - {last.body.value}), Die(None, None))
      else Popped(Rig(rest, r.world), last)
  }

  /** Adding either appends the die and registers its body, or changes nothing. */
  lemma AddIsGuardedAppend(r: Rig, loaded: Die)
    ensures var a := AddDie(r, loaded);
      (a.outcome == Added <==> loaded.body.Some? && loaded.body.value !in r.world) &&
      (a.outcome == Added ==> a.rig.dices == r.dices + [loaded] && a.rig.world == r.world + {loaded.body.value}) &&
      (a.outcome != Added ==> a.rig == r)
  {
  }

  /** Removal is last-in first-out: it drops exactly the last die, and unregisters only its body. */
  lemma RemoveIsLifo(r: Rig)
    ensures RemoveDie(r).NothingToPop? <==> r.dices == []
    ensures RemoveDie(r).Popped? ==>
      var p := RemoveDie(r);
      var last := r.dices[|r.dices| - 1];
      p.rig.dices + [last] == r.dices &&
      (Complete(last) ==> p.die == Die(None, None) && p.rig.world == r.world - {last.body.value}) &&
      (!Complete(last) ==> p.die == last && p.rig.world == r.world)
  {
  }

  lemma AddKeepsRegistered(r: Rig, loaded: Die)
    requires Registered(r.dices, r.world)
    ensures Registered(AddDie(r, loaded).rig.dices, AddDie(r, loaded).rig.world)
  {
    var a := AddDie(r, loaded);
    if a.outcome == Added {
      var ds := a.rig.dices;
      var n := |r.dices|;
      forall i, j | 0 <= i < j < |ds| && ds[i].body.Some? && ds[j].body.Some?
        ensures ds[i].body.value != ds[j].body.value
      {
        if j == n {
          assert ds[i].body.value in r.world;
        } else {
          assert ds[i] == r.dices[i] && ds[j] == r.dices[j];
        }
      }
      forall i | 0 <= i < |ds| && ds[i].body.Some? ensures ds[i].body.value in a.rig.world {
        if i < n { assert ds[i] == r.dices[i]; }
      }
    }
  }

  lemma RemoveKeepsRegistered(r: Rig)
    requires Registered(r.dices, r.world)
    ensures RemoveDie(r).Popped? ==> Registered(RemoveDie(r).rig.dices, RemoveDie(r).rig.world)
  {
    if RemoveDie(r).Popped? {
      var p := RemoveDie(r).rig;
      var k := |r.dices| - 1;
      forall i | 0 <= i < |p.dices| && p.dices[i].body.Some? ensures p.dices[i].body.value in p.world {
        assert p.dices[i] == r.dices[i];
        if Complete(r.dices[k]) {
          assert p.dices[i].body.value != r.dices[k].body.value;
        }
      }
    }
  }

  /**
   * Taking away a complete die and then adding one with a fresh body leaves the
   * collection and the world the same size, though with different handles.
   */
  lemma RemoveThenAddKeepsCounts(r: Rig, loaded: Die)
    requires Registered(r.dices, r.world)
    requires |r.dices| > 0 && Complete(r.dices[|r.dices| - 1])
    requires loaded.body.Some? && loaded.body.value !in r.world
    ensures RemoveDie(r).Popped?
    ensures var a := AddDie(RemoveDie(r).rig, loaded);
      a.outcome == Added && |a.rig.dices| == |r.dices| && |a.rig.world| == |r.world|
  {
    var last := r.dices[|r.dices| - 1];
    assert last.body.value in r.world;
    var mid := RemoveDie(r).rig;
    assert |mid.world| == |r.world| - 1;
  }
}
