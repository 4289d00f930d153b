/**
 * `get_percentile_age`: the ages of an import's citizens grouped by town, and the per-town
 * percentiles laid out as `{town, p50, p75, p99}` entries. The `defaultdict(list)` keeps its keys in
 * first-insertion order and is modelled as an association list.
 */
module PercentileAge {
  /** A citizen as the handler sees it once `_calculate_age` has run: its town and its age. */
  datatype Resident = Resident(town: string, age: int)

  /** `grouped`: town to the ages of its citizens, in first-insertion order. */
  type Grouped = seq<(string, seq<int>)>

  /** The ages of the citizens of `town`, in input order. */
  function AgesIn(cs: seq<Resident>, town: string): seq<int> {
    if cs == [] then []
    else
      var last := cs[|cs| - 1];
      AgesIn(cs[..|cs| - 1], town) + if last.town == town then [last.age] else []
  }

  /** The towns of the citizens, each once, in the order they first appear. */
  function FirstTowns(cs: seq<Resident>): seq<string> {
    if cs == [] then []
    else
      var towns := FirstTowns(cs[..|cs| - 1]);
      var last := cs[|cs| - 1];
      if last.town in towns then towns else towns + [last.town]
  }

  /** The grouping the loop is held to: one entry per town, in first-appearance order. */
  function ByTown(cs: seq<Resident>): (g: Grouped)
    ensures |g| == |FirstTowns(cs)|
  {
    var towns := FirstTowns(cs);
    seq(|towns|, k requires 0 <= k < |towns| => (towns[k], AgesIn(cs, towns[k])))
  }

  /** `grouped[town]`, with the empty default. */
  function Find(g: Grouped, town: string): seq<int> {
    if g == [] then [] else if g[0].0 == town then g[0].1 else Find(g[1..], town)
  }

  /** The number of ages held in all groups. */
  function Size(g: Grouped): nat {
    if g == [] then 0 else |g[0].1| + Size(g[1..])
  }

  predicate NoDuplicateTowns(towns: seq<string>) {
    forall i, j :: 0 <= i < j < |towns| ==> towns[i] != towns[j]
  }

  /** `grouped[town].append(age)` on a `defaultdict(list)`. */
  function Append(g: Grouped, town: string, age: int): Grouped {
    if g == [] then [(town, [age])]
    else if g[0].0 == town then [(town, g[0].1 + [age])] + g[1..]
    else [g[0]] + Append(g[1..], town, age)
  }

  /**
   * Appending to a town whose first entry is at `j` extends that entry; appending to a town with no
   * entry adds one at the end.
   */
  lemma {:induction false} AppendAt(g: Grouped, town: string, age: int, j: nat)
    requires j <= |g|
    requires forall i :: 0 <= i < j ==> g[i].0 != town
    requires j < |g| ==> g[j].0 == town
    ensures j < |g| ==> Append(g, town, age) == g[j := (town, g[j].1 + [age])]
    ensures j == |g| ==> Append(g, town, age) == g + [(town, [age])]
  {
    if g != [] && j > 0 {
      AppendAt(g[1..], town, age, j - 1);
      if j < |g| {
        assert g[1..][j - 1 := (town, g[j].1 + [age])] == g[j := (town, g[j].1 + [age])][1..];
      } else {
        assert g[1..] + [(town, [age])] == (g + [(town, [age])])[1..];
      }
    }
  }

  /** The grouping after the first citizens, as built by the loop. */
  function GroupOf(cs: seq<Resident>): Grouped {
    if cs == [] then []
    else Append(GroupOf(cs[..|cs| - 1]), cs[|cs| - 1].town, cs[|cs| - 1].age)
  }

  lemma {:induction false} FirstTownsIndex(cs: seq<Resident>, town: string)
    requires town in FirstTowns(cs)
    ensures exists c :: c in cs && c.town == town
  {
    if cs != [] {
      var init := cs[..|cs| - 1];
      if town in FirstTowns(init) {
        FirstTownsIndex(init, town);
        var c :| c in init && c.town == town;
        assert c in cs;
      } else {
        assert cs[|cs| - 1] in cs;
      }
    }
  }

  lemma {:induction false} AgesInEmpty(cs: seq<Resident>, town: string)
    requires town !in FirstTowns(cs)
    ensures AgesIn(cs, town) == []
  {
    if cs != [] {
      AgesInEmpty(cs[..|cs| - 1], town);
    }
  }

  /** One more citizen moves the reference grouping as `Append` does. */
  lemma ByTownSnoc(cs: seq<Resident>, c: Resident)
    requires NoDuplicateTowns(FirstTowns(cs))
    ensures NoDuplicateTowns(FirstTowns(cs + [c]))
    ensures ByTown(cs + [c]) == Append(ByTown(cs), c.town, c.age)
  {
    var all := cs + [c];
    assert all[..|cs|] == cs;
    var towns := FirstTowns(cs);
    var g := ByTown(cs);
    forall t ensures AgesIn(all, t) == if c.town == t then AgesIn(cs, t) + [c.age] else AgesIn(cs, t) {
      assert AgesIn(cs, t) + [] == AgesIn(cs, t);
    }
    if c.town in towns {
      var j :| 0 <= j < |towns| && towns[j] == c.town;
      AppendAt(g, c.town, c.age, j);
      assert FirstTowns(all) == towns;
      var r := g[j := (c.town, g[j].1 + [c.age])];
      forall k | 0 <= k < |r| ensures ByTown(all)[k] == r[k] {
        assert ByTown(all)[k] == (towns[k], AgesIn(all, towns[k]));
        assert g[k] == (towns[k], AgesIn(cs, towns[k]));
        if k != j {
          assert towns[k] != c.town;
        } else {
          assert AgesIn(all, c.town) == AgesIn(cs, c.town) + [c.age];
        }
      }
    } else {
      AgesInEmpty(cs, c.town);
      AppendAt(g, c.town, c.age, |g|);
      assert FirstTowns(all) == towns + [c.town];
      var r := g + [(c.town, [c.age])];
      forall k | 0 <= k < |r| ensures ByTown(all)[k] == r[k] {
        assert ByTown(all)[k] == (FirstTowns(all)[k], AgesIn(all, FirstTowns(all)[k]));
        if k < |g| {
          assert g[k] == (towns[k], AgesIn(cs, towns[k]));
          assert towns[k] != c.town;
        } else {
          assert AgesIn(all, c.town) == [] + [c.age] == [c.age];
        }
      }
    }
  }

  /** The loop's grouping is the reference grouping. */
  lemma {:induction false} GroupOfIsByTown(cs: seq<Resident>)
    ensures NoDuplicateTowns(FirstTowns(cs))
    ensures GroupOf(cs) == ByTown(cs)
  {
    if cs != [] {
      var init := cs[..|cs| - 1];
      GroupOfIsByTown(init);
      ByTownSnoc(init, cs[|cs| - 1]);
      assert init + [cs[|cs| - 1]] == cs;
    }
  }

  /** `Find` on the reference grouping gives a town's ages, and nothing for a town with no citizen. */
  lemma FindByTown(cs: seq<Resident>, town: string)
    requires NoDuplicateTowns(FirstTowns(cs))
    ensures Find(ByTown(cs), town) == AgesIn(cs, town)
  {
    var towns := FirstTowns(cs);
    if town in towns {
      var j :| 0 <= j < |towns| && towns[j] == town;
      FindAt(ByTown(cs), town, j);
    } else {
      AgesInEmpty(cs, town);
      FindAt(ByTown(cs), town, |towns|);
    }
  }

  lemma {:induction false} FindAt(g: Grouped, town: string, j: nat)
    requires j <= |g|
    requires forall i :: 0 <= i < j ==> g[i].0 != town
    requires j < |g| ==> g[j].0 == town
    ensures Find(g, town) == if j < |g| then g[j].1 else []
  {
    if g != [] && j > 0 {
      FindAt(g[1..], town, j - 1);
    }
  }

  /** Each group holds one age per citizen of its town, so the groups hold every citizen once. */
  lemma {:induction false} SizeOfGroupOf(cs: seq<Resident>)
    ensures Size(GroupOf(cs)) == |cs|
  {
    if cs != [] {
      SizeOfGroupOf(cs[..|cs| - 1]);
      SizeOfAppend(GroupOf(cs[..|cs| - 1]), cs[|cs| - 1].town, cs[|cs| - 1].age);
    }
  }

  lemma {:induction false} SizeOfAppend(g: Grouped, town: string, age: int)
    ensures Size(Append(g, town, age)) == Size(g) + 1
  {
    var r := Append(g, town, age);
    if g == [] {
      assert r[1..] == [];
    } else if g[0].0 == town {
      assert r[1..] == g[1..];
    } else {
      SizeOfAppend(g[1..], town, age);
      assert r[1..] == Append(g[1..], town, age);
    }
  }

  /** The towns that are keys are exactly the towns of the citizens. */
  lemma {:induction false} FirstTownsAreTowns(cs: seq<Resident>)
    ensures forall t :: t in FirstTowns(cs) <==> exists c :: c in cs && c.town == t
  {
    if cs != [] {
      var init := cs[..|cs| - 1];
      FirstTownsAreTowns(init);
      assert cs == init + [cs[|cs| - 1]];
      forall t | exists c :: c in cs && c.town == t ensures t in FirstTowns(cs) {
        var c :| c in cs && c.town == t;
        if c != cs[|cs| - 1] {
          assert c in init;
        }
      }
      forall t | t in FirstTowns(cs) ensures exists c :: c in cs && c.town == t {
        FirstTownsIndex(cs, t);
      }
    }
  }

  /**
   * `_group_by_town`: for each citizen in order, its age is appended to its town's list. The keys
   * are the citizens' towns, each once, in the order they first appear; each town holds the ages
   * of its citizens in input order; the groups hold every citizen once; no citizens, no groups.
   */
  method GroupByTown(citizens: seq<Resident>) returns (grouped: Grouped)
    ensures grouped == ByTown(citizens)
    ensures |grouped| == |FirstTowns(citizens)|
    ensures forall k :: 0 <= k < |grouped| ==> grouped[k].0 == FirstTowns(citizens)[k]
    ensures NoDuplicateTowns(FirstTowns(citizens))
    ensures forall t :: Find(grouped, t) == AgesIn(citizens, t)
    ensures forall t :: t in FirstTowns(citizens) <==> exists c :: c in citizens && c.town == t
    ensures Size(grouped) == |citizens|
    ensures citizens == [] ==> grouped == []
  {
    grouped := [];
    for i := 0 to |citizens|
      invariant grouped == GroupOf(citizens[..i])
    {
      assert citizens[..i + 1][..i] == citizens[..i];
      grouped := Append(grouped, citizens[i].town, citizens[i].age);
    }
    assert citizens[..|citizens|] == citizens;
    GroupOfIsByTown(citizens);
    SizeOfGroupOf(citizens);
    FirstTownsAreTowns(citizens);
    forall t ensures Find(grouped, t) == AgesIn(citizens, t) {
      FindByTown(citizens, t);
    }
  }

  /** Two citizens of A and one of B: A's ages in order, then B's. */
  lemma GroupByTownExample()
    ensures ByTown([Resident("A", 20), Resident("A", 19), Resident("B", 19)]) == [("A", [20, 19]), ("B", [19])]
  {
    var cs := [Resident("A", 20), Resident("A", 19), Resident("B", 19)];
    assert cs[..2][..1] == cs[..1] && cs[..1][..0] == [];
    assert FirstTowns(cs[..1]) == ["A"];
    assert FirstTowns(cs[..2]) == ["A"];
    assert FirstTowns(cs) == ["A", "B"];
    assert AgesIn(cs[..1], "A") == [20];
    assert AgesIn(cs[..2], "A") == [20, 19];
    assert AgesIn(cs, "A") == [20, 19];
    assert AgesIn(cs[..1], "B") == [];
    assert AgesIn(cs[..2], "B") == [];
    assert AgesIn(cs, "B") == [19];
  }

  /** One entry of the response: a town and its three percentiles. */
  datatype TownPercentiles = TownPercentiles(town: string, p50: real, p75: real, p99: real)

  /**
   * `_get_percentiles_representation`: one entry per town, in key order, with `p50`, `p75` and
   * `p99` read from positions 0, 1 and 2 of the town's list.
   */
  function GetPercentilesRepresentation(data: seq<(string, seq<real>)>): (r: seq<TownPercentiles>)
    requires forall k :: 0 <= k < |data| ==> |data[k].1| >= 3
    ensures |r| == |data|
    ensures forall k :: 0 <= k < |r| ==> r[k].town == data[k].0
    ensures forall k :: 0 <= k < |r| ==> [r[k].p50, r[k].p75, r[k].p99] == data[k].1[..3]
  {
    seq(|data|, k requires 0 <= k < |data| => TownPercentiles(data[k].0, data[k].1[0], data[k].1[1], data[k].1[2]))
  }

  /** The town of every entry, in order. */
  function TownsOf(r: seq<TownPercentiles>): seq<string> {
    seq(|r|, k requires 0 <= k < |r| => r[k].town)
  }

  /**
   * Percentiles computed town by town over the grouping keep its keys, so the response names each
   * town of the import once, in the order its first citizen appears; no citizens give `{'data': []}`.
   */
  lemma RepresentationFollowsTowns(citizens: seq<Resident>, data: seq<(string, seq<real>)>)
    requires |data| == |ByTown(citizens)|
    requires forall k :: 0 <= k < |data| ==> data[k].0 == ByTown(citizens)[k].0 && |data[k].1| >= 3
    ensures TownsOf(GetPercentilesRepresentation(data)) == FirstTowns(citizens)
    ensures NoDuplicateTowns(TownsOf(GetPercentilesRepresentation(data)))
    ensures citizens == [] ==> GetPercentilesRepresentation(data) == []
  {
    GroupOfIsByTown(citizens);
  }

  /** Two towns give two entries, in key order. */
  lemma RepresentationExample()
    ensures GetPercentilesRepresentation([("A", [50.0, 52.0, 54.0]), ("B", [19.0, 19.0, 19.0])])
         == [TownPercentiles("A", 50.0, 52.0, 54.0), TownPercentiles("B", 19.0, 19.0, 19.0)]
  {
  }
}
