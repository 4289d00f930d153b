/**
 * `get_birthdays`: presents counted by month. Every citizen born in month m adds, in month m, one
 * present for each id on its relatives list. The `defaultdict`s keep their keys in first-insertion
 * order and are modelled as association lists.
 */
module Birthdays {
  import opened Wrappers
  import opened DateCodec
  import opened Registry

  /** One month of `birthdays_data`: citizen id to number of presents, in first-insertion order. */
  type Entries = seq<(int, nat)>

  /** `birthdays_data`: month to that month's entries, in first-insertion order. */
  type Tally = seq<(int, Entries)>

  /** `entries[id]`, with the `defaultdict(int)` default 0. */
  function Count(es: Entries, id: int): nat {
    if es == [] then 0 else if es[0].0 == id then es[0].1 else Count(es[1..], id)
  }

  function Keys(es: Entries): set<int> {
    if es == [] then {} else {es[0].0} + Keys(es[1..])
  }

  /** `birthdays_data[month]`, with the empty default. */
  function Lookup(t: Tally, month: int): Entries {
    if t == [] then [] else if t[0].0 == month then t[0].1 else Lookup(t[1..], month)
  }

  function Months(t: Tally): set<int> {
    if t == [] then {} else {t[0].0} + Months(t[1..])
  }

  /** `birthdays_data[month][id]`. */
  function PresentsIn(t: Tally, month: int, id: int): nat {
    Count(Lookup(t, month), id)
  }

  predicate DistinctKeys(es: Entries) {
    es == [] || (es[0].0 !in Keys(es[1..]) && DistinctKeys(es[1..]))
  }

  predicate DistinctMonths(t: Tally) {
    t == [] || (t[0].0 !in Months(t[1..]) && DistinctMonths(t[1..]))
  }

  /** A month with data: at least one id, the ids distinct, no count of zero. */
  predicate GoodEntries(es: Entries) {
    es != [] && DistinctKeys(es) && forall j :: 0 <= j < |es| ==> es[j].1 > 0
  }

  /** What the counting loop builds: distinct months, each with good entries. */
  predicate GoodTally(t: Tally) {
    DistinctMonths(t) && forall k :: 0 <= k < |t| ==> GoodEntries(t[k].1)
  }

  function Sum(es: Entries): nat {
    if es == [] then 0 else es[0].1 + Sum(es[1..])
  }

  /** The sum of all counts. */
  function Total(t: Tally): nat {
    if t == [] then 0 else Sum(t[0].1) + Total(t[1..])
  }

  /**
   * `entries[id] += 1` on a `defaultdict(int)`: one more for `id`, appended with count 1 when
   * absent; every other count and every key's position stay as they were.
   */
  function Bump(es: Entries, id: int): (r: Entries)
    ensures forall x :: Count(r, x) == Count(es, x) + (if x == id then 1 else 0)
    ensures Sum(r) == Sum(es) + 1
    ensures Keys(r) == Keys(es) + {id}
    ensures |r| >= |es| && forall j :: 0 <= j < |es| ==> r[j].0 == es[j].0
    ensures (es == [] || GoodEntries(es)) ==> GoodEntries(r)
  {
    if es == [] then [(id, 1)]
    else if es[0].0 == id then
      var r := [(id, es[0].1 + 1)] + es[1..];
      assert r[1..] == es[1..];
      r
    else
      var r := [es[0]] + Bump(es[1..], id);
      assert r[1..] == Bump(es[1..], id);
      r
  }

  /**
   * `birthdays_data[month][id] += 1`: a new month goes at the end, and every month already present
   * keeps its place.
   */
  function Record(t: Tally, month: int, id: int): (r: Tally)
    ensures |r| >= |t| && forall k :: 0 <= k < |t| ==> r[k].0 == t[k].0
  {
    if t == [] then [(month, [(id, 1)])]
    else if t[0].0 == month then [(month, Bump(t[0].1, id))] + t[1..]
    else [t[0]] + Record(t[1..], month, id)
  }

  /** `entries[id] += 1` for an id not yet present appends it with count 1. */
  lemma {:induction false} BumpNewId(es: Entries, id: int)
    requires forall j :: 0 <= j < |es| ==> es[j].0 != id
    ensures Bump(es, id) == es + [(id, 1)]
  {
    if es != [] {
      BumpNewId(es[1..], id);
      assert [es[0]] + (es[1..] + [(id, 1)]) == es + [(id, 1)];
    }
  }

  /** `entries[id] += 1` for an id present at index `k` raises that count in place. */
  lemma {:induction false} BumpExistingId(es: Entries, k: nat, id: int)
    requires k < |es| && es[k].0 == id
    requires forall j :: 0 <= j < k ==> es[j].0 != id
    ensures Bump(es, id) == es[k := (id, es[k].1 + 1)]
  {
    var v := (id, es[k].1 + 1);
    if k > 0 {
      var rest := es[1..];
      assert rest[k - 1] == es[k];
      forall j | 0 <= j < k - 1 ensures rest[j].0 != id {
        assert rest[j] == es[j + 1];
      }
      calc {
        Bump(es, id);
        [es[0]] + Bump(rest, id);
        { BumpExistingId(rest, k - 1, id); }
        [es[0]] + rest[k - 1 := v];
        { UpdateAfterHead(es, k, v); }
        es[k := v];
      }
    } else {
      calc {
        Bump(es, id);
        [v] + es[1..];
        es[0 := v];
      }
    }
  }

  /** Updating past the head of a list is updating its tail. */
  lemma UpdateAfterHead<T>(s: seq<T>, k: nat, v: T)
    requires 0 < k < |s|
    ensures [s[0]] + s[1..][k - 1 := v] == s[k := v]
  {
    assert [s[0]] + s[1..][k - 1 := v] == s[k := v];
  }

  /** A month not yet in the tally is appended at the end, with one present for `id`. */
  lemma {:induction false} RecordNewMonth(t: Tally, month: int, id: int)
    requires forall k :: 0 <= k < |t| ==> t[k].0 != month
    ensures Record(t, month, id) == t + [(month, [(id, 1)])]
  {
    if t != [] {
      RecordNewMonth(t[1..], month, id);
      assert [t[0]] + (t[1..] + [(month, [(id, 1)])]) == t + [(month, [(id, 1)])];
    }
  }

  /** A month already in the tally at index `k` keeps its place; only its entries are bumped. */
  lemma {:induction false} RecordExistingMonth(t: Tally, k: nat, month: int, id: int)
    requires k < |t| && t[k].0 == month
    requires forall j :: 0 <= j < k ==> t[j].0 != month
    ensures Record(t, month, id) == t[k := (month, Bump(t[k].1, id))]
  {
    if k > 0 {
      var v := (month, Bump(t[k].1, id));
      var rest := t[1..];
      assert rest[k - 1] == t[k];
      forall j | 0 <= j < k - 1 ensures rest[j].0 != month {
        assert rest[j] == t[j + 1];
      }
      calc {
        Record(t, month, id);
        [t[0]] + Record(rest, month, id);
        { RecordExistingMonth(rest, k - 1, month, id); }
        [t[0]] + rest[k - 1 := v];
        { UpdateAfterHead(t, k, v); }
        t[k := v];
      }
    }
  }

  /** Recording a present adds one to the count of (`month`, `id`) and changes no other count. */
  lemma {:induction false} RecordPresents(t: Tally, month: int, id: int)
    ensures forall m, x :: PresentsIn(Record(t, month, id), m, x)
                        == PresentsIn(t, m, x) + (if m == month && x == id then 1 else 0)
  {
    var r := Record(t, month, id);
    if t == [] {
      assert r == [(month, [(id, 1)])] && r[1..] == [] && r[0].1[1..] == [];
      forall m, x ensures PresentsIn(r, m, x) == if m == month && x == id then 1 else 0 {
        if m == month {
          assert Lookup(r, m) == [(id, 1)];
          assert Count([(id, 1)], x) == if x == id then 1 else Count([(id, 1)][1..], x);
        } else {
          assert Lookup(r, m) == Lookup(r[1..], m);
        }
      }
    } else if t[0].0 == month {
      assert r[0] == (month, Bump(t[0].1, id)) && r[1..] == t[1..];
    } else {
      RecordPresents(t[1..], month, id);
      var rest := Record(t[1..], month, id);
      assert r[0] == t[0] && r[1..] == rest;
      forall m, x ensures PresentsIn(r, m, x) == PresentsIn(t, m, x) + (if m == month && x == id then 1 else 0) {
        if t[0].0 != m {
          assert PresentsIn(r, m, x) == PresentsIn(rest, m, x);
          assert PresentsIn(t, m, x) == PresentsIn(t[1..], m, x);
        }
      }
    }
  }

  /** Recording a present adds one to the total. */
  lemma {:induction false} RecordTotal(t: Tally, month: int, id: int)
    ensures Total(Record(t, month, id)) == Total(t) + 1
  {
    var r := Record(t, month, id);
    if t == [] {
      assert r[1..] == [] && r[0].1[1..] == [];
      assert Sum(r[0].1) == 1 + Sum(r[0].1[1..]);
    } else if t[0].0 == month {
      assert r[1..] == t[1..];
    } else {
      RecordTotal(t[1..], month, id);
      assert r[1..] == Record(t[1..], month, id);
    }
  }

  /** Recording a present adds its month to the months. */
  lemma {:induction false} RecordMonths(t: Tally, month: int, id: int)
    ensures Months(Record(t, month, id)) == Months(t) + {month}
  {
    var r := Record(t, month, id);
    if t == [] {
      assert r[1..] == [];
    } else if t[0].0 == month {
      assert r[1..] == t[1..];
    } else {
      RecordMonths(t[1..], month, id);
      assert r[1..] == Record(t[1..], month, id);
    }
  }

  /** Recording a present keeps months distinct and entries good. */
  lemma {:induction false} RecordGood(t: Tally, month: int, id: int)
    requires GoodTally(t)
    ensures GoodTally(Record(t, month, id))
  {
    var r := Record(t, month, id);
    if t == [] {
      assert r[1..] == [] && r[0].1[1..] == [];
      assert DistinctKeys(r[0].1) && DistinctMonths(r);
      assert GoodEntries(r[0].1);
    } else if t[0].0 == month {
      assert r[1..] == t[1..];
      assert forall k :: 1 <= k < |r| ==> r[k] == t[k];
    } else {
      var rest := Record(t[1..], month, id);
      assert GoodTally(t[1..]) by {
        assert forall k :: 0 <= k < |t[1..]| ==> t[1..][k] == t[k + 1];
      }
      RecordGood(t[1..], month, id);
      RecordMonths(t[1..], month, id);
      assert r[1..] == rest;
      assert forall k :: 1 <= k < |r| ==> r[k] == rest[k - 1];
    }
  }

  /** The (month, relative id) pairs, one per present, that a citizen born in `month` contributes. */
  function Gifts(month: int, relatives: seq<int>): (ps: seq<(int, int)>)
    ensures |ps| == |relatives|
  {
    if relatives == [] then []
    else Gifts(month, relatives[..|relatives| - 1]) + [(month, relatives[|relatives| - 1])]
  }

  /** A citizen born in `month` gives, in that month, one present per occurrence of an id. */
  lemma GiftsCount(month: int, relatives: seq<int>)
    ensures forall m, x :: multiset(Gifts(month, relatives))[(m, x)] == if m == month then multiset(relatives)[x] else 0
    ensures MonthsOf(Gifts(month, relatives)) == if relatives == [] then {} else {month}
  {
    forall m, x ensures multiset(Gifts(month, relatives))[(m, x)] == if m == month then multiset(relatives)[x] else 0 {
      GiftsCountAt(month, relatives, m, x);
    }
    GiftsMonths(month, relatives);
  }

  lemma {:induction false} GiftsCountAt(month: int, relatives: seq<int>, m: int, x: int)
    ensures multiset(Gifts(month, relatives))[(m, x)] == if m == month then multiset(relatives)[x] else 0
  {
    if relatives != [] {
      var init, last := relatives[..|relatives| - 1], relatives[|relatives| - 1];
      assert relatives == init + [last];
      GiftsCountAt(month, init, m, x);
      assert Gifts(month, relatives) == Gifts(month, init) + [(month, last)];
      assert multiset(Gifts(month, relatives)) == multiset(Gifts(month, init)) + multiset{(month, last)};
      assert multiset(relatives) == multiset(init) + multiset{last};
    }
  }

  lemma {:induction false} GiftsMonths(month: int, relatives: seq<int>)
    ensures MonthsOf(Gifts(month, relatives)) == if relatives == [] then {} else {month}
  {
    if relatives != [] {
      var init := relatives[..|relatives| - 1];
      GiftsMonths(month, init);
      var ps := Gifts(month, relatives);
      assert ps[..|ps| - 1] == Gifts(month, init);
    }
  }

  /** The months of a sequence of presents. */
  function MonthsOf(ps: seq<(int, int)>): set<int> {
    if ps == [] then {} else MonthsOf(ps[..|ps| - 1]) + {ps[|ps| - 1].0}
  }

  lemma {:induction false} MonthsOfConcat(a: seq<(int, int)>, b: seq<(int, int)>)
    ensures MonthsOf(a + b) == MonthsOf(a) + MonthsOf(b)
  {
    if b != [] {
      var init := b[..|b| - 1];
      assert (a + b)[..|a + b| - 1] == a + init;
      assert (a + b)[|a + b| - 1] == b[|b| - 1];
      MonthsOfConcat(a, init);
      assert MonthsOf(a + b) == MonthsOf(a + init) + {b[|b| - 1].0};
      assert MonthsOf(b) == MonthsOf(init) + {b[|b| - 1].0};
    } else {
      assert a + b == a;
    }
  }

  function BirthMonth(c: Citizen): int
    requires c.birthDate.Parsed?
  {
    c.birthDate.date.month
  }

  predicate ParsedDates(cs: seq<Citizen>) {
    forall i :: 0 <= i < |cs| ==> cs[i].birthDate.Parsed?
  }

  /** `relative_id` occurrences, summed over the citizens born in `month`: the expected count. */
  function PresentsFor(cs: seq<Citizen>, month: int, id: int): nat
    requires ParsedDates(cs)
  {
    if cs == [] then 0
    else
      var last := cs[|cs| - 1];
      PresentsFor(cs[..|cs| - 1], month, id) + if BirthMonth(last) == month then multiset(last.relatives)[id] else 0
  }

  /** The total length of all relatives lists. */
  function TotalRelatives(cs: seq<Citizen>): nat {
    if cs == [] then 0 else TotalRelatives(cs[..|cs| - 1]) + |cs[|cs| - 1].relatives|
  }

  /** The birth months of the citizens that have at least one relative. */
  function GivingMonths(cs: seq<Citizen>): set<int>
    requires ParsedDates(cs)
  {
    if cs == [] then {}
    else
      var last := cs[|cs| - 1];
      GivingMonths(cs[..|cs| - 1]) + if last.relatives == [] then {} else {BirthMonth(last)}
  }

  /** Every present the loop counts, in loop order. */
  function AllGifts(cs: seq<Citizen>): seq<(int, int)>
    requires ParsedDates(cs)
  {
    if cs == [] then []
    else
      var last := cs[|cs| - 1];
      AllGifts(cs[..|cs| - 1]) + Gifts(BirthMonth(last), last.relatives)
  }

  /**
   * The presents the loop counts: one per entry of a relatives list; (m, x) as many times as x
   * appears on the lists of citizens born in m; and the months are those of citizens with a relative.
   */
  lemma {:induction false} AllGiftsCount(cs: seq<Citizen>)
    requires ParsedDates(cs)
    ensures |AllGifts(cs)| == TotalRelatives(cs)
    ensures forall m, x :: multiset(AllGifts(cs))[(m, x)] == PresentsFor(cs, m, x)
    ensures MonthsOf(AllGifts(cs)) == GivingMonths(cs)
  {
    if cs != [] {
      var init := cs[..|cs| - 1];
      var last := cs[|cs| - 1];
      AllGiftsCount(init);
      GiftsCount(BirthMonth(last), last.relatives);
      MonthsOfConcat(AllGifts(init), Gifts(BirthMonth(last), last.relatives));
    }
  }

  /** The tally of a sequence of presents, counted in order: the reference the loop is held to. */
  function TallyOf(ps: seq<(int, int)>): Tally {
    if ps == [] then []
    else Record(TallyOf(ps[..|ps| - 1]), ps[|ps| - 1].0, ps[|ps| - 1].1)
  }

  /** The tally has distinct months, each with distinct ids and positive counts. */
  lemma {:induction false} TallyOfGood(ps: seq<(int, int)>)
    ensures GoodTally(TallyOf(ps))
  {
    if ps != [] {
      TallyOfGood(ps[..|ps| - 1]);
      RecordGood(TallyOf(ps[..|ps| - 1]), ps[|ps| - 1].0, ps[|ps| - 1].1);
    }
  }

  /** Each count of the tally is the number of occurrences of its (month, id) pair. */
  lemma {:induction false} TallyOfPresents(ps: seq<(int, int)>)
    ensures forall m, x :: PresentsIn(TallyOf(ps), m, x) == multiset(ps)[(m, x)]
  {
    forall m, x ensures PresentsIn(TallyOf(ps), m, x) == multiset(ps)[(m, x)] {
      TallyOfPresentsAt(ps, m, x);
    }
  }

  lemma {:induction false} TallyOfPresentsAt(ps: seq<(int, int)>, m: int, x: int)
    ensures PresentsIn(TallyOf(ps), m, x) == multiset(ps)[(m, x)]
  {
    if ps != [] {
      var init := ps[..|ps| - 1];
      var last := ps[|ps| - 1];
      TallyOfPresentsAt(init, m, x);
      RecordPresents(TallyOf(init), last.0, last.1);
      assert multiset(ps) == multiset(init) + multiset{last} by {
        assert ps == init + [last];
      }
    }
  }

  /** The counts of the tally add up to the number of presents. */
  lemma {:induction false} TallyOfTotal(ps: seq<(int, int)>)
    ensures Total(TallyOf(ps)) == |ps|
  {
    if ps != [] {
      TallyOfTotal(ps[..|ps| - 1]);
      RecordTotal(TallyOf(ps[..|ps| - 1]), ps[|ps| - 1].0, ps[|ps| - 1].1);
    }
  }

  /** The months of the tally are the months of the presents. */
  lemma {:induction false} TallyOfMonths(ps: seq<(int, int)>)
    ensures Months(TallyOf(ps)) == MonthsOf(ps)
  {
    if ps != [] {
      TallyOfMonths(ps[..|ps| - 1]);
      RecordMonths(TallyOf(ps[..|ps| - 1]), ps[|ps| - 1].0, ps[|ps| - 1].1);
    }
  }

  /** The tally of the citizens' presents, in the citizens' terms. */
  lemma TallyOfCitizens(cs: seq<Citizen>)
    requires ParsedDates(cs)
    ensures GoodTally(TallyOf(AllGifts(cs)))
    ensures forall m, x :: PresentsIn(TallyOf(AllGifts(cs)), m, x) == PresentsFor(cs, m, x)
    ensures Total(TallyOf(AllGifts(cs))) == TotalRelatives(cs)
    ensures Months(TallyOf(AllGifts(cs))) == GivingMonths(cs)
  {
    AllGiftsCount(cs);
    TallyOfGood(AllGifts(cs));
    TallyOfPresents(AllGifts(cs));
    TallyOfTotal(AllGifts(cs));
    TallyOfMonths(AllGifts(cs));
  }

  /**
   * `_get_birthdays_data`: for each citizen in order, for each id on its relatives list in order,
   * one more present in the citizen's birth month. The result is the tally of all the presents:
   * each count is the number of times the id appears on the lists of the citizens born in that
   * month, the counts add up to the total length of the lists, and a month appears exactly when a
   * citizen born in it has a relative.
   */
  method GetBirthdaysData(citizens: seq<Citizen>) returns (data: Tally)
    requires ParsedDates(citizens)
    ensures data == TallyOf(AllGifts(citizens))
    ensures GoodTally(data)
    ensures forall m, x :: PresentsIn(data, m, x) == PresentsFor(citizens, m, x)
    ensures Total(data) == TotalRelatives(citizens)
    ensures Months(data) == GivingMonths(citizens)
  {
    data := [];
    for i := 0 to |citizens|
      invariant data == TallyOf(AllGifts(citizens[..i]))
    {
      var month := citizens[i].birthDate.date.month;
      var relatives := citizens[i].relatives;
      ghost var before := AllGifts(citizens[..i]);
      assert before + Gifts(month, relatives[..0]) == before by {
        assert relatives[..0] == [];
      }
      for j := 0 to |relatives|
        invariant data == TallyOf(before + Gifts(month, relatives[..j]))
      {
        CountOneMore(before, month, relatives, j);
        data := Record(data, month, relatives[j]);
      }
      NextCitizen(citizens, i);
    }
    assert citizens[..|citizens|] == citizens;
    TallyOfCitizens(citizens);
  }

  /** One more turn of the inner loop records one more present. */
  lemma CountOneMore(before: seq<(int, int)>, month: int, relatives: seq<int>, j: nat)
    requires j < |relatives|
    ensures TallyOf(before + Gifts(month, relatives[..j + 1]))
         == Record(TallyOf(before + Gifts(month, relatives[..j])), month, relatives[j])
  {
    assert relatives[..j + 1][..j] == relatives[..j];
    var ps := before + Gifts(month, relatives[..j + 1]);
    assert ps[..|ps| - 1] == before + Gifts(month, relatives[..j]);
  }

  /** After the inner loop, the presents of the next citizen have been added. */
  lemma NextCitizen(citizens: seq<Citizen>, i: nat)
    requires ParsedDates(citizens) && i < |citizens|
    ensures ParsedDates(citizens[..i]) && ParsedDates(citizens[..i + 1])
    ensures AllGifts(citizens[..i + 1])
         == AllGifts(citizens[..i]) + Gifts(citizens[i].birthDate.date.month, citizens[i].relatives[..|citizens[i].relatives|])
  {
    assert citizens[..i + 1][..i] == citizens[..i];
    assert citizens[i].relatives[..|citizens[i].relatives|] == citizens[i].relatives;
  }

  /** No citizens, or no relatives, give no months at all. */
  lemma NoRelativesNoData(cs: seq<Citizen>)
    requires ParsedDates(cs)
    requires forall i :: 0 <= i < |cs| ==> cs[i].relatives == []
    ensures TallyOf(AllGifts(cs)) == []
  {
    NoRelativesTotal(cs);
    AllGiftsCount(cs);
  }

  lemma {:induction false} NoRelativesTotal(cs: seq<Citizen>)
    requires forall i :: 0 <= i < |cs| ==> cs[i].relatives == []
    ensures TotalRelatives(cs) == 0
  {
    if cs != [] {
      NoRelativesTotal(cs[..|cs| - 1]);
    }
  }

  function Born(day: int, month: int, year: int): BirthDate {
    Parsed(Date(day, month, year))
  }

  function Resident(citizenId: int, birthDate: BirthDate, relatives: seq<int>): Citizen {
    Citizen(citizenId, "", "", "", 0, "", birthDate, Male, relatives)
  }

  lemma GiftsSnoc(month: int, relatives: seq<int>, x: int)
    ensures Gifts(month, relatives + [x]) == Gifts(month, relatives) + [(month, x)]
  {
    assert (relatives + [x])[..|relatives|] == relatives;
  }

  lemma AllGiftsSnoc(cs: seq<Citizen>, c: Citizen)
    requires ParsedDates(cs) && c.birthDate.Parsed?
    ensures ParsedDates(cs + [c])
    ensures AllGifts(cs + [c]) == AllGifts(cs) + Gifts(BirthMonth(c), c.relatives)
  {
    assert (cs + [c])[..|cs|] == cs;
  }

  lemma TallyOfSnoc(ps: seq<(int, int)>, p: (int, int))
    ensures TallyOf(ps + [p]) == Record(TallyOf(ps), p.0, p.1)
  {
    assert (ps + [p])[..|ps|] == ps;
  }

  lemma GiftsOfOne(month: int, a: int)
    ensures Gifts(month, [a]) == [(month, a)]
  {
    var none: seq<int> := [];
    GiftsSnoc(month, none, a);
    assert none + [a] == [a];
  }

  lemma GiftsOfTwo(month: int, a: int, b: int)
    ensures Gifts(month, [a, b]) == [(month, a), (month, b)]
  {
    GiftsOfOne(month, a);
    GiftsSnoc(month, [a], b);
    assert [a] + [b] == [a, b];
  }

  lemma AllGiftsOfThree(c0: Citizen, c1: Citizen, c2: Citizen)
    requires c0.birthDate.Parsed? && c1.birthDate.Parsed? && c2.birthDate.Parsed?
    ensures ParsedDates([c0, c1, c2])
    ensures AllGifts([c0, c1, c2])
         == Gifts(BirthMonth(c0), c0.relatives) + Gifts(BirthMonth(c1), c1.relatives) + Gifts(BirthMonth(c2), c2.relatives)
  {
    var nobody: seq<Citizen> := [];
    AllGiftsSnoc(nobody, c0);
    assert nobody + [c0] == [c0];
    AllGiftsSnoc([c0], c1);
    assert [c0] + [c1] == [c0, c1];
    AllGiftsSnoc([c0, c1], c2);
    assert [c0, c1] + [c2] == [c0, c1, c2];
  }

  /**
   * Three citizens born in February and March: months and ids in first-insertion order, and
   * citizen 0 counted twice in March.
   */
  lemma MultipleRelativesExample()
    ensures TallyOf(AllGifts([
      Resident(0, Born(1, 2, 2019), [1, 2]),
      Resident(1, Born(1, 3, 2019), [0]),
      Resident(2, Born(1, 3, 2019), [0, 1])])) == [(2, [(1, 1), (2, 1)]), (3, [(0, 2), (1, 1)])]
  {
    AllGiftsOfThree(Resident(0, Born(1, 2, 2019), [1, 2]), Resident(1, Born(1, 3, 2019), [0]),
                    Resident(2, Born(1, 3, 2019), [0, 1]));
    GiftsOfTwo(2, 1, 2);
    GiftsOfOne(3, 0);
    GiftsOfTwo(3, 0, 1);
    var ps: seq<(int, int)> := [(2, 1), (2, 2), (3, 0), (3, 0), (3, 1)];
    assert [(2, 1), (2, 2)] + [(3, 0)] + [(3, 0), (3, 1)] == ps;
    ExampleTally();
  }

  /** The presents of that example, recorded one by one. */
  lemma ExampleTally()
    ensures TallyOf([(2, 1), (2, 2), (3, 0), (3, 0), (3, 1)]) == [(2, [(1, 1), (2, 1)]), (3, [(0, 2), (1, 1)])]
  {
    var p0: seq<(int, int)> := [];
    var p1 := p0 + [(2, 1)];
    var p2 := p1 + [(2, 2)];
    var p3 := p2 + [(3, 0)];
    var p4 := p3 + [(3, 0)];
    var p5 := p4 + [(3, 1)];
    assert p5 == [(2, 1), (2, 2), (3, 0), (3, 0), (3, 1)];
    TallyOfSnoc(p0, (2, 1));
    TallyOfSnoc(p1, (2, 2));
    TallyOfSnoc(p2, (3, 0));
    TallyOfSnoc(p3, (3, 0));
    TallyOfSnoc(p4, (3, 1));
    ExampleSecond();
    ExampleThird();
    ExampleFourth();
    ExampleFifth();
  }

  lemma ExampleSecond()
    ensures Record([(2, [(1, 1)])], 2, 2) == [(2, [(1, 1), (2, 1)])]
  {
    var t1: Tally := [(2, [(1, 1)])];
    RecordExistingMonth(t1, 0, 2, 2);
    BumpNewId([(1, 1)], 2);
    assert Bump([(1, 1)], 2) == [(1, 1), (2, 1)];
  }

  lemma ExampleThird()
    ensures Record([(2, [(1, 1), (2, 1)])], 3, 0) == [(2, [(1, 1), (2, 1)]), (3, [(0, 1)])]
  {
    var t2: Tally := [(2, [(1, 1), (2, 1)])];
    RecordNewMonth(t2, 3, 0);
  }

  lemma ExampleFourth()
    ensures Record([(2, [(1, 1), (2, 1)]), (3, [(0, 1)])], 3, 0) == [(2, [(1, 1), (2, 1)]), (3, [(0, 2)])]
  {
    var t3: Tally := [(2, [(1, 1), (2, 1)]), (3, [(0, 1)])];
    RecordExistingMonth(t3, 1, 3, 0);
    BumpExistingId([(0, 1)], 0, 0);
    assert Bump([(0, 1)], 0) == [(0, 2)];
  }

  lemma ExampleFifth()
    ensures Record([(2, [(1, 1), (2, 1)]), (3, [(0, 2)])], 3, 1) == [(2, [(1, 1), (2, 1)]), (3, [(0, 2), (1, 1)])]
  {
    var t4: Tally := [(2, [(1, 1), (2, 1)]), (3, [(0, 2)])];
    RecordExistingMonth(t4, 1, 3, 1);
    BumpNewId([(0, 2)], 1);
    assert Bump([(0, 2)], 1) == [(0, 2), (1, 1)];
  }

  lemma {:induction false} InMonths(t: Tally, k: nat)
    requires k < |t|
    ensures t[k].0 in Months(t)
  {
    if k > 0 {
      InMonths(t[1..], k - 1);
    }
  }

  /** In a tally with distinct months, the month at index `k` looks up the entries at index `k`. */
  lemma {:induction false} LookupAt(t: Tally, k: nat)
    requires DistinctMonths(t) && k < |t|
    ensures Lookup(t, t[k].0) == t[k].1
  {
    if k > 0 {
      InMonths(t[1..], k - 1);
      LookupAt(t[1..], k - 1);
    }
  }

  lemma {:induction false} LookupMissing(t: Tally, month: int)
    requires forall k :: 0 <= k < |t| ==> t[k].0 != month
    ensures Lookup(t, month) == [] && month !in Months(t)
  {
    if t != [] {
      LookupMissing(t[1..], month);
    }
  }

  lemma {:induction false} LookupAbsent(t: Tally, month: int)
    requires month !in Months(t)
    ensures Lookup(t, month) == []
  {
    if t != [] {
      LookupAbsent(t[1..], month);
    }
  }

  /**
   * `_get_birthdays_representation`: twelve months (keys "1" to "12", here positions 0 to 11),
   * each holding the entries of that month, or nothing when the month has no data.
   */
  method GetBirthdaysRepresentation(data: Tally) returns (months: seq<Entries>)
    requires DistinctMonths(data)
    requires forall k :: 0 <= k < |data| ==> 1 <= data[k].0 <= 12
    ensures |months| == 12
    ensures forall m :: 1 <= m <= 12 ==> months[m - 1] == Lookup(data, m)
    ensures forall m :: 1 <= m <= 12 && m !in Months(data) ==> months[m - 1] == []
  {
    months := seq(12, _ => []);
    ghost var seen: set<int> := {};
    for k := 0 to |data|
      invariant |months| == 12
      invariant forall j :: 0 <= j < k ==> data[j].0 in seen
      invariant forall m :: 1 <= m <= 12 ==> months[m - 1] == if m in seen then Lookup(data, m) else []
    {
      var month := data[k].0;
      LookupAt(data, k);
      months := months[month - 1 := data[k].1];
      seen := seen + {month};
      assert months[month - 1] == Lookup(data, month);
    }
    forall m | 1 <= m <= 12 && m !in seen ensures Lookup(data, m) == [] {
      LookupMissing(data, m);
    }
    forall m | 1 <= m <= 12 && m !in Months(data) ensures months[m - 1] == [] {
      LookupAbsent(data, m);
    }
  }

  /** A stored `datetime` has a month between 1 and 12, so every month of the tally does. */
  lemma {:induction false} StoredMonths(cs: seq<Citizen>)
    requires StoredDates(cs)
    ensures ParsedDates(cs)
    ensures forall m :: m in GivingMonths(cs) ==> 1 <= m <= 12
  {
    if cs != [] {
      StoredMonths(cs[..|cs| - 1]);
    }
  }

  lemma {:induction false} MonthsWithin(t: Tally)
    requires forall m :: m in Months(t) ==> 1 <= m <= 12
    ensures forall k :: 0 <= k < |t| ==> 1 <= t[k].0 <= 12
  {
    forall k | 0 <= k < |t| ensures 1 <= t[k].0 <= 12 {
      InMonths(t, k);
    }
  }

  /**
   * `get_birthdays`: the citizens of the import, counted and laid out by month, with status 201;
   * a missing import fails.
   */
  method GetBirthdays(store: Store, importId: int) returns (r: Result<(seq<Entries>, int), Failure>)
    requires store.Valid()
    ensures r.Failure? <==> GetCitizens(store.imports, importId).Failure?
    ensures r.Failure? ==> r.error == ImportNotFound
    ensures r.Success? ==>
      var cs := GetCitizens(store.imports, importId).value;
      && ParsedDates(cs)
      && r.value.1 == 201
      && |r.value.0| == 12
      && forall m :: 1 <= m <= 12 ==> r.value.0[m - 1] == Lookup(TallyOf(AllGifts(cs)), m)
  {
    var found := GetCitizens(store.imports, importId);
    if found.Failure? {
      return Failure(found.error);
    }
    var citizens := found.value;
    StoredMonths(citizens);
    var data := GetBirthdaysData(citizens);
    MonthsWithin(data);
    var months := GetBirthdaysRepresentation(data);
    return Success((months, 201));
  }
}
