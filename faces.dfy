/** The fixed table that maps each axis-aligned face normal of a die to its pip value. */
module Faces {
  import opened Geometry

  datatype Face = Face(normal: Vec3, value: int)

  /** Scanned in this order; the order decides ties. */
  const Table: seq<Face> := [
    Face(Vec3(0.0, 1.0, 0.0), 1),
    Face(Vec3(0.0, -1.0, 0.0), 6),
    Face(Vec3(1.0, 0.0, 0.0), 4),
    Face(Vec3(-1.0, 0.0, 0.0), 3),
    Face(Vec3(0.0, 0.0, 1.0), 5),
    Face(Vec3(0.0, 0.0, -1.0), 2)
  ]

  /** The table lists faces in opposite pairs: 0 and 1, 2 and 3, 4 and 5. */
  function Opposite(i: nat): nat {
    if i < 6 then [1, 0, 3, 2, 5, 4][i] else i
  }

  function Values(): seq<int> {
    seq(|Table|, i requires 0 <= i < |Table| => Table[i].value)
  }

  /** The six unit vectors along the coordinate axes. */
  const Axes: set<Vec3> := {
    Vec3(1.0, 0.0, 0.0), Vec3(-1.0, 0.0, 0.0),
    Vec3(0.0, 1.0, 0.0), Vec3(0.0, -1.0, 0.0),
    Vec3(0.0, 0.0, 1.0), Vec3(0.0, 0.0, -1.0)
  }

  function Normals(): seq<Vec3> {
    seq(|Table|, i requires 0 <= i < |Table| => Table[i].normal)
  }

  /** Six faces whose normals are the six axis directions, each listed once. */
  lemma NormalsAreDistinctAxes()
    ensures |Table| == 6
    ensures forall i, j :: 0 <= i < j < |Table| ==> Table[i].normal != Table[j].normal
    ensures (set i | 0 <= i < |Table| :: Table[i].normal) == Axes
  {
    var ns := Normals();
    assert ns == [Vec3(0.0, 1.0, 0.0), Vec3(0.0, -1.0, 0.0), Vec3(1.0, 0.0, 0.0),
                  Vec3(-1.0, 0.0, 0.0), Vec3(0.0, 0.0, 1.0), Vec3(0.0, 0.0, -1.0)];
    forall i, j | 0 <= i < j < |Table| ensures Table[i].normal != Table[j].normal {
      assert Table[i].normal == ns[i] && Table[j].normal == ns[j];
    }
    assert forall v :: v in Axes ==> v == ns[0] || v == ns[1] || v == ns[2] || v == ns[3] || v == ns[4] || v == ns[5];
  }

  /** The pip values are exactly 1 through 6, each once. */
  lemma ValuesArePermutation()
    ensures multiset(Values()) == multiset{1, 2, 3, 4, 5, 6}
  {
    calc {
      multiset(Values());
      { assert Values() == [1, 6, 4, 3, 5, 2]; }
      multiset([1, 6, 4, 3, 5, 2]);
      multiset{1, 2, 3, 4, 5, 6};
    }
  }

  /** Face i and its opposite have opposite normals and values adding up to seven. */
  lemma OppositePair(i: nat)
    requires i < |Table|
    ensures Opposite(i) < |Table| && Opposite(Opposite(i)) == i
    ensures Table[Opposite(i)].normal == Neg(Table[i].normal)
    ensures Table[i].value + Table[Opposite(i)].value == 7
  {
    var f := Table[i];
    if i == 0 { assert f == Face(Vec3(0.0, 1.0, 0.0), 1) && Opposite(i) == 1; }
    else if i == 1 { assert f == Face(Vec3(0.0, -1.0, 0.0), 6) && Opposite(i) == 0; }
    else if i == 2 { assert f == Face(Vec3(1.0, 0.0, 0.0), 4) && Opposite(i) == 3; }
    else if i == 3 { assert f == Face(Vec3(-1.0, 0.0, 0.0), 3) && Opposite(i) == 2; }
    else if i == 4 { assert f == Face(Vec3(0.0, 0.0, 1.0), 5) && Opposite(i) == 5; }
    else { assert f == Face(Vec3(0.0, 0.0, -1.0), 2) && Opposite(i) == 4; }
  }

  /** Opposite faces have opposite normals and their values add up to seven; all six add up to 21. */
  lemma OppositeFacesSumToSeven()
    ensures forall i :: 0 <= i < |Table| ==> Opposite(i) < |Table| && Opposite(Opposite(i)) == i
    ensures forall i :: 0 <= i < |Table| ==>
      Table[Opposite(i)].normal == Neg(Table[i].normal) && Table[i].value + Table[Opposite(i)].value == 7
    ensures Table[0].value + Table[1].value + Table[2].value + Table[3].value + Table[4].value + Table[5].value == 21
  {
    forall i | 0 <= i < |Table|
      ensures Opposite(i) < |Table| && Opposite(Opposite(i)) == i
      ensures Table[Opposite(i)].normal == Neg(Table[i].normal) && Table[i].value + Table[Opposite(i)].value == 7
    {
      OppositePair(i);
    }
  }
}
