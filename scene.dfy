/**
 * The scene's module-level state as one object: the dice, the physics
 * world's bodies, the two session flags, the published results, and the
 * parts of the engines' state the scene writes (the throw given to each
 * body, the transform copied onto each mesh).
 */
module Scene {
  import opened Wrappers
  import opened Stamps
  import opened Dice
  import opened Resolver
  import opened Session

  /** Each die's body, as the key a throw writes under. */
  function BodyKeys(dices: seq<Die>): seq<Option<BodyId>> {
    seq(|dices|, i requires 0 <= i < |dices| => dices[i].body)
  }

  /** Each complete die's mesh, as the key a transform copy writes under. */
  function SyncKeys(dices: seq<Die>): seq<Option<MeshId>> {
    seq(|dices|, i requires 0 <= i < |dices| => if Complete(dices[i]) then dices[i].mesh else None)
  }

  function Kicks(draws: seq<Draw>): seq<Kick> {
    seq(|draws|, i requires 0 <= i < |draws| => KickOf(draws[i]))
  }

  function Poses(states: seq<BodyState>): seq<Pose> {
    seq(|states|, i requires 0 <= i < |states| => Pose(states[i].position, states[i].orientation))
  }

  /** No mesh belongs to two complete dice. */
  predicate MeshesDistinct(dices: seq<Die>) {
    forall i, j :: 0 <= i < j < |dices| && Complete(dices[i]) && Complete(dices[j]) ==>
      dices[i].mesh.value != dices[j].mesh.value
  }

  class Scene {
    var dices: seq<Die>
    var world: set<BodyId>
    var gettingResult: bool
    var isMoving: bool
    /** Every value handed to the result store, oldest first. */
    var published: seq<int>
    /** The last throw given to each body. */
    var bodyKick: map<BodyId, Kick>
    /** The last transform copied onto each mesh. */
    var meshPose: map<MeshId, Pose>

    function State(): SessionState
      reads this
    {
      SessionState(gettingResult, isMoving, published)
    }

    function Collection(): Rig
      reads this
    {
      Rig(dices, world)
    }

    /** What a subscriber to the result store currently sees; the store starts at 0. */
    function StoreValue(): int
      reads this
    {
      if published == [] then 0 else published[|published| - 1]
    }

    /**
     * The module's state when it is first loaded: no dice, no result awaited
     * (the flag starts out undefined, which is falsy), and a store holding 0.
     * No physics world exists yet; the model starts from an empty one.
     */
    constructor()
      ensures dices == [] && world == {}
      ensures State() == Initial && StoreValue() == 0
      ensures bodyKick == map[] && meshPose == map[]
    {
      dices, world := [], {};
      gettingResult, isMoving, published := false, false, [];
      bodyKick, meshPose := map[], map[];
    }

    /**
     * Scene start-up: a new, empty physics world replaces the old one, and
     * each loaded die, in order, is appended to the dice already present and
     * its body registered. A loaded die always has a body. Neither the
     * session flags nor the store are reset, so a throw made before start-up
     * is still awaited afterwards.
     */
    method Create(loaded: seq<Die>)
      requires AllBodied(loaded)
      modifies this
      ensures dices == old(dices) + loaded && world == BodySet(loaded)
      ensures State() == old(State()) && bodyKick == old(bodyKick) && meshPose == old(meshPose)
      ensures old(dices) == [] && BodiesDistinct(loaded) ==> Registered(dices, world) && |world| == |loaded|
      ensures forall i :: 0 <= i < |old(dices)| && old(dices)[i].body.Some? && old(dices)[i].body.value !in world ==>
        !Registered(dices, world)
    {
      ghost var earlier := dices;
      world := {};
      for i := 0 to |loaded|
        invariant dices == earlier + loaded[..i] && world == BodySet(loaded[..i])
        invariant State() == old(State()) && bodyKick == old(bodyKick) && meshPose == old(meshPose)
      {
        assert loaded[..i + 1][..i] == loaded[..i];
        assert (earlier + loaded[..i]) + [loaded[i]] == earlier + loaded[..i + 1];
        dices := dices + [loaded[i]];
        world := world + {loaded[i].body.value};
      }
      assert loaded[..|loaded|] == loaded;
      if earlier == [] && BodiesDistinct(loaded) {
        assert dices == loaded;
        CreateRegistersEach(loaded);
      }
      forall i | 0 <= i < |earlier| && earlier[i].body.Some? && earlier[i].body.value !in world
        ensures !Registered(dices, world)
      {
        RestartStrandsEarlierDice(earlier, loaded, i);
      }
    }

    /**
     * A throw: awaits a result, unless some die has no body; every die that
     * has one is thrown with its own draws, including those after a bodiless die.
     */
    method Roll(draws: seq<Draw>)
      requires |draws| == |dices|
      modifies this
      ensures dices == old(dices) && world == old(world) && meshPose == old(meshPose)
      ensures State() == AfterRoll(old(State()), dices)
      ensures gettingResult <==> AllBodied(dices)
      ensures bodyKick == Stamp(old(bodyKick), BodyKeys(dices), Kicks(draws))
      ensures BodiesDistinct(dices) ==> forall i :: 0 <= i < |dices| && dices[i].body.Some? ==>
        dices[i].body.value in bodyKick && bodyKick[dices[i].body.value] == KickOf(draws[i])
      ensures forall b :: (forall i :: 0 <= i < |dices| ==> dices[i].body != Some(b)) ==>
        (b in bodyKick <==> b in old(bodyKick)) && (b in old(bodyKick) ==> bodyKick[b] == old(bodyKick)[b])
    {
      gettingResult := true;
      for i := 0 to |dices|
        invariant dices == old(dices) && world == old(world) && meshPose == old(meshPose)
        invariant isMoving == old(isMoving) && published == old(published)
        invariant gettingResult <==> AllBodied(dices[..i])
        invariant bodyKick == Stamp(old(bodyKick), BodyKeys(dices)[..i], Kicks(draws)[..i])
      {
        assert BodyKeys(dices)[..i + 1][..i] == BodyKeys(dices)[..i];
        assert Kicks(draws)[..i + 1][..i] == Kicks(draws)[..i];
        assert AllBodied(dices[..i + 1]) <==> AllBodied(dices[..i]) && dices[i].body.Some?;
        if dices[i].body.None? {
          gettingResult := false;
          continue;
        }
        bodyKick := bodyKick[dices[i].body.value := KickOf(draws[i])];
      }
      assert dices[..|dices|] == dices;
      assert BodyKeys(dices)[..|dices|] == BodyKeys(dices);
      assert Kicks(draws)[..|draws|] == Kicks(draws);
      if BodiesDistinct(dices) {
        forall i | 0 <= i < |dices| && dices[i].body.Some?
          ensures dices[i].body.value in bodyKick && bodyKick[dices[i].body.value] == KickOf(draws[i])
        {
          StampLastWriter(old(bodyKick), BodyKeys(dices), Kicks(draws), i);
        }
      }
      forall b | forall i :: 0 <= i < |dices| ==> dices[i].body != Some(b)
        ensures b in bodyKick <==> b in old(bodyKick)
        ensures b in old(bodyKick) ==> bodyKick[b] == old(bodyKick)[b]
      {
        StampUntouched(old(bodyKick), BodyKeys(dices), Kicks(draws), b);
      }
    }

    /**
     * The settlement part of one animation frame, after the physics step:
     * copy each complete die's body transform onto its mesh, scan the dice
     * for motion (throwing at the first die without a body), and publish the
     * total if a result is awaited and nothing moves.
     */
    method Frame(states: seq<BodyState>) returns (crashed: bool)
      requires |states| == |dices|
      modifies this
      ensures dices == old(dices) && world == old(world) && bodyKick == old(bodyKick)
      ensures meshPose == Stamp(old(meshPose), SyncKeys(dices), Poses(states))
      ensures MeshesDistinct(dices) ==> forall i :: 0 <= i < |dices| && Complete(dices[i]) ==>
        dices[i].mesh.value in meshPose && meshPose[dices[i].mesh.value] == Pose(states[i].position, states[i].orientation)
      ensures forall m :: (forall i :: 0 <= i < |dices| && Complete(dices[i]) ==> dices[i].mesh != Some(m)) ==>
        (m in meshPose <==> m in old(meshPose)) && (m in old(meshPose) ==> meshPose[m] == old(meshPose)[m])
      ensures crashed <==> !AllBodied(dices)
      ensures State() == AfterFrame(old(State()), dices, states)
    {
      SyncMeshes(states);
      crashed := ScanMotion(states);
      ScanCrashesIffBodiless(dices);
      if crashed {
        return;
      }
      assert states[..BodiedPrefix(dices)] == states;
      if gettingResult && !isMoving {
        var result := GetDiceResult(dices, states);
        published := published + [result];
        gettingResult := false;
      }
    }

    /** Copies each complete die's body transform onto its mesh. */
    method SyncMeshes(states: seq<BodyState>)
      requires |states| == |dices|
      modifies this`meshPose
      ensures meshPose == Stamp(old(meshPose), SyncKeys(dices), Poses(states))
      ensures MeshesDistinct(dices) ==> forall i :: 0 <= i < |dices| && Complete(dices[i]) ==>
        dices[i].mesh.value in meshPose && meshPose[dices[i].mesh.value] == Pose(states[i].position, states[i].orientation)
      ensures forall m :: (forall i :: 0 <= i < |dices| && Complete(dices[i]) ==> dices[i].mesh != Some(m)) ==>
        (m in meshPose <==> m in old(meshPose)) && (m in old(meshPose) ==> meshPose[m] == old(meshPose)[m])
    {
      for i := 0 to |dices|
        invariant meshPose == Stamp(old(meshPose), SyncKeys(dices)[..i], Poses(states)[..i])
      {
        assert SyncKeys(dices)[..i + 1][..i] == SyncKeys(dices)[..i];
        assert Poses(states)[..i + 1][..i] == Poses(states)[..i];
        if dices[i].mesh.Some? && dices[i].body.Some? {
          meshPose := meshPose[dices[i].mesh.value := Pose(states[i].position, states[i].orientation)];
        }
      }
      assert SyncKeys(dices)[..|dices|] == SyncKeys(dices);
      assert Poses(states)[..|states|] == Poses(states);
      if MeshesDistinct(dices) {
        forall i | 0 <= i < |dices| && Complete(dices[i])
          ensures dices[i].mesh.value in meshPose
          ensures meshPose[dices[i].mesh.value] == Pose(states[i].position, states[i].orientation)
        {
          StampLastWriter(old(meshPose), SyncKeys(dices), Poses(states), i);
        }
      }
      forall m | forall i :: 0 <= i < |dices| && Complete(dices[i]) ==> dices[i].mesh != Some(m)
        ensures m in meshPose <==> m in old(meshPose)
        ensures m in old(meshPose) ==> meshPose[m] == old(meshPose)[m]
      {
        StampUntouched(old(meshPose), SyncKeys(dices), Poses(states), m);
      }
    }

    /**
     * Recomputes the motion flag from the dice in order. Reading the body of
     * a die that has none throws: the scan stops there, reporting a crash.
     */
    method ScanMotion(states: seq<BodyState>) returns (crashed: bool)
      requires |states| == |dices|
      modifies this`isMoving
      ensures crashed <==> !AllBodied(dices)
      ensures isMoving == AnyMoving(states[..BodiedPrefix(dices)])
    {
      isMoving := false;
      var i := 0;
      while i < |dices| && dices[i].body.Some?
        invariant 0 <= i <= |dices|
        invariant forall j :: 0 <= j < i ==> dices[j].body.Some?
        invariant isMoving == AnyMoving(states[..i])
      {
        assert states[..i + 1][..i] == states[..i];
        if IsMoving(states[i]) {
          isMoving := true;
        }
        i := i + 1;
      }
      assert i == BodiedPrefix(dices);
      ScanCrashesIffBodiless(dices);
      crashed := i < |dices|;
    }

    /**
     * Adding a freshly loaded die: appended and registered unless it has no
     * body or its body is already in the world.
     */
    method Add(loaded: Die) returns (outcome: AddOutcome)
      modifies this
      ensures AddDie(old(Collection()), loaded) == Addition(outcome, Collection())
      ensures old(Registered(dices, world)) ==> Registered(dices, world)
      ensures State() == old(State()) && bodyKick == old(bodyKick) && meshPose == old(meshPose)
    {
      if Registered(dices, world) {
        AddKeepsRegistered(Collection(), loaded);
      }
      if loaded.body.None? {
        return MissingBody;
      }
      if loaded.body.value in world {
        return AlreadyInWorld;
      }
      dices := dices + [loaded];
      world := world + {loaded.body.value};
      outcome := Added;
    }

    /**
     * Taking away the last die. None: the collection was empty and the
     * removal threw before changing anything. Otherwise the popped record,
     * with both references cleared if it was complete (its body is then
     * unregistered).
     */
    method Remove() returns (removed: Option<Die>)
      modifies this
      ensures removed.None? <==> old(dices) == []
      ensures removed.None? ==> dices == old(dices) && world == old(world)
      ensures removed.Some? ==> RemoveDie(old(Collection())) == Popped(Collection(), removed.value)
      ensures old(Registered(dices, world)) ==> Registered(dices, world)
      ensures State() == old(State()) && bodyKick == old(bodyKick) && meshPose == old(meshPose)
    {
      if Registered(dices, world) {
        RemoveKeepsRegistered(Collection());
      }
      if dices == [] {
        return None;
      }
      var dice := dices[|dices| - 1];
      dices := dices[..|dices| - 1];
      if dice.mesh.Some? && dice.body.Some? {
        world := world - {dice.body.value};
        dice := Die(None, None);
      }
      removed := Some(dice);
    }
  }
}
