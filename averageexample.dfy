/** The averaging example: two seeds of one learning rate, with y curves
    [1, 2, 3] and [3, 2, 1], average to [2, 2, 2] with a deviation of [1, 0, 1]
    (given a square root with sqrt(1) = 1 and sqrt(0) = 0). */
module AverageExample {
  import opened Wrappers
  import opened Parameters
  import opened Series
  import opened Grouping
  import opened Steps

  function SeedOne(): Entry {
    Entry([("lr", Num(0.5)), ("seed", Num(1.0))], Data(Vector([0.0, 1.0, 2.0]), Vector([1.0, 2.0, 3.0]), None))
  }

  function SeedTwo(): Entry {
    Entry([("lr", Num(0.5)), ("seed", Num(2.0))], Data(Vector([0.0, 1.0, 2.0]), Vector([3.0, 2.0, 1.0]), None))
  }

  /** Dropping `seed` from the example's parameters leaves the learning rate. */
  lemma OmitSeed(lr: Value, seed: Value)
    ensures Omit([("lr", lr), ("seed", seed)], ["seed"]) == [("lr", lr)]
  {
    assert "lr" != "seed";
    OmitCons(("seed", seed), [], ["seed"]);
    OmitCons(("lr", lr), [("seed", seed)], ["seed"]);
    assert [("lr", lr), ("seed", seed)] == [("lr", lr)] + [("seed", seed)];
  }

  /** Two entries with one key form one group, in their order. */
  lemma PairGroups(a: Entry, b: Entry, key: Entry -> Pairs)
    requires key(a) == key(b)
    ensures GroupBy([a, b], key) == [[a, b]]
  {
    assert [a, b][..1] == [a];
    assert [a][..0] == [];
    assert GroupBy([a], key) == [[a]];
    assert FindGroup([[a]], key, key(b)) == Some(0);
    assert [a] + [b] == [a, b];
    assert [[a]][0 := [a, b]] == [[a, b]];
  }

  lemma ExampleGroups()
    ensures Groups([SeedOne(), SeedTwo()], ["seed"]) == [[SeedOne(), SeedTwo()]]
  {
    OmitSeed(Num(0.5), Num(1.0));
    OmitSeed(Num(0.5), Num(2.0));
    PairGroups(SeedOne(), SeedTwo(), EntryKey(["seed"]));
  }

  lemma MeanOfTwo(p: real, q: real)
    ensures Mean([p, q]) == (p + q) / 2.0
    ensures PopVariance([p, q]) == Square(p - q) / 4.0
  {
    assert [p, q][1..] == [q] && [q][1..] == [];
    assert Sum([q]) == q;
    assert Sum([p, q]) == p + q;
    var m := (p + q) / 2.0;
    var d := [Square(p - m), Square(q - m)];
    assert seq(2, i requires 0 <= i < 2 => Square([p, q][i] - m)) == d;
    assert d[1..] == [d[1]] && [d[1]][1..] == [];
    assert Sum([d[1]]) == d[1];
    assert Sum(d) == d[0] + d[1];
  }

  lemma ExampleX()
    ensures Averageable([SeedOne(), SeedTwo()])
    ensures MeanColumns(Xs([SeedOne(), SeedTwo()])) == Vector([0.0, 1.0, 2.0])
  {
    var p := [0.0, 1.0, 2.0];
    assert Xs([SeedOne(), SeedTwo()]) == [Vector(p), Vector(p)];
    assert Ys([SeedOne(), SeedTwo()]) == [Vector([1.0, 2.0, 3.0]), Vector([3.0, 2.0, 1.0])];
    TwoVectors(p, p);
    TwoVectors([1.0, 2.0, 3.0], [3.0, 2.0, 1.0]);
    ThreeOf(MeanColumns([Vector(p), Vector(p)]), 0.0, 1.0, 2.0);
  }

  /** Two vectors of one length average position by position. */
  lemma TwoVectors(p: seq<real>, q: seq<real>)
    requires |p| == |q|
    ensures SameShape([Vector(p), Vector(q)])
    ensures var m, v := MeanColumns([Vector(p), Vector(q)]), VarianceColumns([Vector(p), Vector(q)]);
      m.Vector? && v.Vector? && |m.vs| == |v.vs| == |p| &&
      forall j :: 0 <= j < |p| ==> m.vs[j] == (p[j] + q[j]) / 2.0 && v.vs[j] == Square(p[j] - q[j]) / 4.0
  {
    var cs := [Vector(p), Vector(q)];
    assert SameShape(cs) by {
      assert !AllScalars(cs) && AllVectorsOfLength(cs, |p|);
    }
    forall j | 0 <= j < |p|
      ensures MeanColumns(cs).vs[j] == (p[j] + q[j]) / 2.0 && VarianceColumns(cs).vs[j] == Square(p[j] - q[j]) / 4.0
    {
      assert Slice(cs, j) == [p[j], q[j]];
      MeanOfTwo(p[j], q[j]);
    }
  }

  lemma ThreeOf(c: Column, a: real, b: real, d: real)
    requires c.Vector? && |c.vs| == 3 && c.vs[0] == a && c.vs[1] == b && c.vs[2] == d
    ensures c == Vector([a, b, d])
  {
  }

  lemma ExampleYMean()
    ensures MeanColumns(Ys([SeedOne(), SeedTwo()])) == Vector([2.0, 2.0, 2.0])
  {
    var p, q := [1.0, 2.0, 3.0], [3.0, 2.0, 1.0];
    assert Ys([SeedOne(), SeedTwo()]) == [Vector(p), Vector(q)];
    TwoVectors(p, q);
    ThreeOf(MeanColumns([Vector(p), Vector(q)]), 2.0, 2.0, 2.0);
  }

  lemma ExampleYVariance()
    ensures VarianceColumns(Ys([SeedOne(), SeedTwo()])) == Vector([1.0, 0.0, 1.0])
  {
    var p, q := [1.0, 2.0, 3.0], [3.0, 2.0, 1.0];
    assert Ys([SeedOne(), SeedTwo()]) == [Vector(p), Vector(q)];
    TwoVectors(p, q);
    assert Square(-2.0) == 4.0 && Square(0.0) == 0.0 && Square(2.0) == 4.0;
    ThreeOf(VarianceColumns([Vector(p), Vector(q)]), 1.0, 0.0, 1.0);
  }

  lemma ExampleGroup(sqrt: real -> real)
    requires sqrt(1.0) == 1.0 && sqrt(0.0) == 0.0
    ensures Averageable([SeedOne(), SeedTwo()])
    ensures AverageGroup([SeedOne(), SeedTwo()], ["seed"], true, sqrt) ==
      Entry([("lr", Num(0.5))], Data(Vector([0.0, 1.0, 2.0]), Vector([2.0, 2.0, 2.0]), Some(Vector([1.0, 0.0, 1.0]))))
  {
    ExampleX();
    ExampleYMean();
    ExampleYVariance();
    var vy := VarianceColumns(Ys([SeedOne(), SeedTwo()]));
    ThreeOf(MapColumn(vy, sqrt), 1.0, 0.0, 1.0);
    OmitSeed(Num(0.5), Num(1.0));
  }

  lemma SeedsAverage(sqrt: real -> real)
    requires sqrt(1.0) == 1.0 && sqrt(0.0) == 0.0
    ensures AverageOf([SeedOne(), SeedTwo()], ["seed"], true, sqrt) ==
      Some([Entry([("lr", Num(0.5))], Data(Vector([0.0, 1.0, 2.0]), Vector([2.0, 2.0, 2.0]), Some(Vector([1.0, 0.0, 1.0]))))])
  {
    ExampleGroups();
    ExampleGroup(sqrt);
    var gs := Groups([SeedOne(), SeedTwo()], ["seed"]);
    assert forall i :: 0 <= i < |gs| ==> Averageable(gs[i]);
    var r := seq(|gs|, i requires 0 <= i < |gs| => AverageGroup(gs[i], ["seed"], true, sqrt));
    assert AverageOf([SeedOne(), SeedTwo()], ["seed"], true, sqrt) == Some(r);
    assert r == [AverageGroup([SeedOne(), SeedTwo()], ["seed"], true, sqrt)];
  }
}
