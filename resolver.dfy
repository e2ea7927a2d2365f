/**
 * Reading the settled dice. For each die with a body, every face normal is
 * rotated by the body's orientation and its up-ness compared against the
 * best so far, starting from -1 and replacing only on a strictly larger
 * value; the value of the winning face is added to the total.
 */
module Resolver {
  import opened Wrappers
  import opened Geometry
  import opened Faces
  import opened Dice

  /** The up-ness of each face, in table order, for a body oriented by q. */
  function FaceDots(q: Quaternion): (dots: seq<real>)
    ensures |dots| == |Table|
  {
    [UpDot(q, Table[0].normal), UpDot(q, Table[1].normal), UpDot(q, Table[2].normal),
     UpDot(q, Table[3].normal), UpDot(q, Table[4].normal), UpDot(q, Table[5].normal)]
  }

  /**
   * k is the face the scan settles on: above the starting bound -1, at least
   * as high as every face, and strictly higher than every face before it.
   */
  predicate IsFirstMax(dots: seq<real>, k: int) {
    0 <= k < |dots| && dots[k] > -1.0 &&
    (forall j :: 0 <= j < |dots| ==> dots[j] <= dots[k]) &&
    (forall j :: 0 <= j < k ==> dots[j] < dots[k])
  }

  /**
   * The index the scan holds after looking at every entry of dots, or None
   * when no entry beats -1.
   */
  function Leader(dots: seq<real>): (r: Option<nat>)
    ensures r.Some? ==> IsFirstMax(dots, r.value)
    ensures r.None? <==> forall j :: 0 <= j < |dots| ==> dots[j] <= -1.0
    decreases |dots|
  {
    if |dots| == 0 then None
    else
      var n := |dots| - 1;
      var p := Leader(dots[..n]);
      var best := if p.None? then -1.0 else dots[p.value];
      if dots[n] > best then Some(n) else p
  }

  /** At most one index is a first maximum, so the scan's choice is the only one possible. */
  lemma LeaderIsUnique(dots: seq<real>, k: int)
    requires IsFirstMax(dots, k)
    ensures Leader(dots) == Some(k)
  {
    assert Leader(dots).Some? by {
      assert dots[k] > -1.0;
    }
  }

  /** The faces come in opposite pairs, so the six values are three values and their negations. */
  lemma FaceDotsPaired(q: Quaternion)
    ensures var y, x, z := UpDot(q, Table[0].normal), UpDot(q, Table[2].normal), UpDot(q, Table[4].normal);
      FaceDots(q) == [y, -y, x, -x, z, -z]
  {
    assert Table[1].normal == Neg(Table[0].normal);
    assert Table[3].normal == Neg(Table[2].normal);
    assert Table[5].normal == Neg(Table[4].normal);
    UpDotNeg(q, Table[0].normal);
    UpDotNeg(q, Table[2].normal);
    UpDotNeg(q, Table[4].normal);
  }

  /** Opposite faces have opposite up-ness, for every orientation. */
  lemma OppositeDots(q: Quaternion)
    ensures forall i :: 0 <= i < |Table| ==> FaceDots(q)[Opposite(i)] == -FaceDots(q)[i]
  {
    FaceDotsPaired(q);
    forall i | 0 <= i < |Table| ensures FaceDots(q)[Opposite(i)] == -FaceDots(q)[i] {
      OppositePair(i);
    }
  }

  /** Some face always beats -1: of the +Y and -Y faces, one points up or sideways. */
  lemma SomeFaceWins(q: Quaternion)
    ensures Leader(FaceDots(q)).Some?
  {
    FaceDotsPaired(q);
    var dots := FaceDots(q);
    assert dots[1] == -dots[0];
    assert dots[0] > -1.0 || dots[1] > -1.0;
  }

  /**
   * The pip value one die shows. Adding JavaScript's `null` to a number adds
   * nothing, so a die whose scan found no face would count 0; that cannot
   * happen, and the value is always the value of the first highest face.
   */
  function DieValue(q: Quaternion): (v: int)
    ensures 1 <= v <= 6
    ensures exists k :: IsFirstMax(FaceDots(q), k) && v == Table[k].value
  {
    SomeFaceWins(q);
    var k := Leader(FaceDots(q)).value;
    Table[k].value
  }

  /** The total over all dice; a die without a body is skipped. */
  function Resolve(dices: seq<Die>, states: seq<BodyState>): (total: int)
    requires |states| == |dices|
    ensures CountBodied(dices) <= total <= 6 * CountBodied(dices)
    decreases |dices|
  {
    if |dices| == 0 then 0
    else
      var n := |dices| - 1;
      Resolve(dices[..n], states[..n]) + (if dices[n].body.Some? then DieValue(states[n].orientation) else 0)
  }

  /** With every die holding a body, the total of N dice lies between N and 6 N. */
  lemma ResolveBounds(dices: seq<Die>, states: seq<BodyState>)
    requires |states| == |dices| && AllBodied(dices)
    ensures |dices| <= Resolve(dices, states) <= 6 * |dices|
  {
  }

  /**
   * The up-ness of the six faces in closed form: those of +Y, +X and +Z are
   * entries of the rotation's middle row, and each opposite face has the
   * negated value.
   */
  lemma FaceDotsClosedForm(q: Quaternion)
    ensures var y, x, z := q.w * q.w - q.x * q.x + q.y * q.y - q.z * q.z,
                           2.0 * (q.x * q.y + q.w * q.z),
                           2.0 * (q.y * q.z - q.w * q.x);
      FaceDots(q) == [y, -y, x, -x, z, -z]
  {
    FaceDotsPaired(q);
    UpDotAxes(q);
  }

  /**
   * A die that has not been rotated shows 1: its +Y face points straight up.
   * Both unit quaternions of the identity rotation, (0, 0, 0, 1) and its
   * negation, are covered.
   */
  lemma UnrotatedShowsOne(q: Quaternion)
    requires q.x == 0.0 && q.y == 0.0 && q.z == 0.0 && q.w * q.w == 1.0
    ensures FaceDots(q) == [1.0, -1.0, 0.0, 0.0, 0.0, 0.0]
    ensures DieValue(q) == 1
  {
    var dots := FaceDots(q);
    assert dots == [1.0, -1.0, 0.0, 0.0, 0.0, 0.0] by {
      FaceDotsClosedForm(q);
    }
    assert IsFirstMax(dots, 0);
    LeaderIsUnique(dots, 0);
  }

  /** Half a turn about the X axis turns the -Y face up: the die shows 6. */
  lemma HalfTurnShowsSix(q: Quaternion)
    requires q.y == 0.0 && q.z == 0.0 && q.w == 0.0 && q.x * q.x == 1.0
    ensures FaceDots(q) == [-1.0, 1.0, 0.0, 0.0, 0.0, 0.0]
    ensures DieValue(q) == 6
  {
    var dots := FaceDots(q);
    assert dots == [-1.0, 1.0, 0.0, 0.0, 0.0, 0.0] by {
      FaceDotsClosedForm(q);
    }
    assert IsFirstMax(dots, 1);
    LeaderIsUnique(dots, 1);
  }

  /** A quarter turn about the X axis that brings +Z up: the die shows 5. */
  lemma QuarterTurnShowsFive(c: real)
    requires c > 0.0 && c * c == 0.5
    ensures FaceDots(Quaternion(-c, 0.0, 0.0, c)) == [0.0, 0.0, 0.0, 0.0, 1.0, -1.0]
    ensures DieValue(Quaternion(-c, 0.0, 0.0, c)) == 5
  {
    var q := Quaternion(-c, 0.0, 0.0, c);
    var dots := FaceDots(q);
    assert dots == [0.0, 0.0, 0.0, 0.0, 1.0, -1.0] by {
      FaceDotsClosedForm(q);
      assert q.w * q.w - q.x * q.x == 0.0 && q.w * q.x == -0.5;
    }
    assert IsFirstMax(dots, 4);
    LeaderIsUnique(dots, 4);
  }

  /** The inner scan over the six faces of one die. */
  method TopFaceValue(q: Quaternion) returns (value: int)
    ensures value == DieValue(q)
  {
    ghost var dots := FaceDots(q);
    var maxDot := -1.0;
    var diceValue: Option<int> := None;
    for i := 0 to |Table|
      invariant Leader(dots[..i]).None? ==> maxDot == -1.0 && diceValue == None
      invariant Leader(dots[..i]).Some? ==>
        maxDot == dots[Leader(dots[..i]).value] && diceValue == Some(Table[Leader(dots[..i]).value].value)
    {
      var dot := UpDot(q, Table[i].normal);
      assert dots[..i + 1][..i] == dots[..i];
      if dot > maxDot {
        maxDot := dot;
        diceValue := Some(Table[i].value);
      }
    }
    assert dots[..|Table|] == dots;
    SomeFaceWins(q);
    value := if diceValue.Some? then diceValue.value else 0;
  }

  /** The outer pass over the dice, adding each die's value. */
  method GetDiceResult(dices: seq<Die>, states: seq<BodyState>) returns (result: int)
    requires |states| == |dices|
    ensures result == Resolve(dices, states)
  {
    result := 0;
    for i := 0 to |dices|
      invariant result == Resolve(dices[..i], states[..i])
    {
      assert dices[..i + 1][..i] == dices[..i] && states[..i + 1][..i] == states[..i];
      if dices[i].body.Some? {
        var v := TopFaceValue(states[i].orientation);
        result := result + v;
      }
    }
    assert dices[..|dices|] == dices && states[..|states|] == states;
  }
}
