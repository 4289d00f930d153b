/**
 * The older `Validator.validate_import`: after the schema, it checks that citizen ids are unique,
 * then walks the citizens in order checking self-relation and that every relative is a citizen of
 * the batch, and replaces each `birth_date` text in place by the parsed date. It does not check
 * repeated relatives or symmetry.
 */
module LegacyValidator {
  import opened Wrappers
  import opened DateCodec
  import opened Registry
  import ImportValidator

  /** The `ValidationError` messages of this validator. */
  datatype LegacyError =
    | IdsNotUnique     // 'Citizens ids are not unique'
    | SelfRelative     // 'Citizen can not be relative to himself'
    | RelativeNotFound // 'Citizen relative does not exists'
    | BirthDateFormat  // "Citizen's birth_date format is incorrect: ..."

  /** The loop body's three checks for one citizen, in the order they run. */
  function CheckCitizen(ids: set<int>, c: Citizen): (r: Outcome<LegacyError>)
    requires c.birthDate.Text?
    ensures r.Pass? <==>
      c.citizenId !in c.relatives && Elems(c.relatives) <= ids && Parse(c.birthDate.text).Some?
    ensures r == Fail(SelfRelative) <==> c.citizenId in c.relatives
    ensures r == Fail(RelativeNotFound) <==> c.citizenId !in c.relatives && !(Elems(c.relatives) <= ids)
    ensures r == Fail(BirthDateFormat) <==>
      c.citizenId !in c.relatives && Elems(c.relatives) <= ids && Parse(c.birthDate.text).None?
    ensures r != Fail(IdsNotUnique)
  {
    if c.citizenId in Elems(c.relatives) then Fail(SelfRelative)
    else if !(Elems(c.relatives) <= ids) then Fail(RelativeNotFound)
    else if Parse(c.birthDate.text).None? then Fail(BirthDateFormat)
    else Pass
  }

  /** The first citizen, in list order, whose checks fail, with the error raised there. */
  function FirstFailure(ids: set<int>, cs: seq<Citizen>): (r: Option<(nat, LegacyError)>)
    requires forall i :: 0 <= i < |cs| ==> cs[i].birthDate.Text?
    ensures r.None? <==> forall i :: 0 <= i < |cs| ==> CheckCitizen(ids, cs[i]).Pass?
    ensures r.Some? ==>
      && r.value.0 < |cs|
      && CheckCitizen(ids, cs[r.value.0]) == Fail(r.value.1)
      && forall j :: 0 <= j < r.value.0 ==> CheckCitizen(ids, cs[j]).Pass?
  {
    if cs == [] then None
    else
      match CheckCitizen(ids, cs[0])
      case Fail(e) => Some((0, e))
      case Pass =>
        match FirstFailure(ids, cs[1..])
        case None => None
        case Some((k, e)) => Some((k + 1, e))
  }

  /** The loop raises at citizen `i` when every earlier citizen passes and `i` fails. */
  lemma {:induction false} FirstFailureAt(ids: set<int>, cs: seq<Citizen>, i: nat)
    requires forall j :: 0 <= j < |cs| ==> cs[j].birthDate.Text?
    requires i < |cs| && CheckCitizen(ids, cs[i]).Fail?
    requires forall j :: 0 <= j < i ==> CheckCitizen(ids, cs[j]).Pass?
    ensures FirstFailure(ids, cs) == Some((i, CheckCitizen(ids, cs[i]).error))
  {
    if i > 0 {
      assert CheckCitizen(ids, cs[0]).Pass?;
      assert cs[1..][i - 1] == cs[i];
      FirstFailureAt(ids, cs[1..], i - 1);
    }
  }

  /**
   * `validate_import`: duplicate ids are rejected before anything is converted; otherwise the
   * citizens before the first failing one have their birth dates converted in place, and on
   * success every citizen has.
   */
  method ValidateImport(citizens: array<Citizen>) returns (r: Outcome<LegacyError>)
    requires forall i :: 0 <= i < citizens.Length ==> citizens[i].birthDate.Text?
    modifies citizens
    ensures !UniqueIds(old(citizens[..])) ==>
      r == Fail(IdsNotUnique) && citizens[..] == old(citizens[..])
    ensures UniqueIds(old(citizens[..])) ==>
      match FirstFailure(Ids(old(citizens[..])), old(citizens[..]))
      case None => r.Pass? && citizens[..] == ConvertPrefix(old(citizens[..]), citizens.Length)
      case Some((k, e)) => r == Fail(e) && citizens[..] == ConvertPrefix(old(citizens[..]), k)
  {
    ghost var cs := citizens[..];
    var ids := set i | 0 <= i < citizens.Length :: citizens[i].citizenId;
    assert ids == Ids(cs) by {
      forall x ensures x in ids <==> x in Ids(cs) {
        if x in Ids(cs) {
          var c :| c in cs && c.citizenId == x;
          var i :| 0 <= i < |cs| && cs[i] == c;
        }
      }
    }
    UniqueByCardinality(cs);
    if |ids| != citizens.Length {
      return Fail(IdsNotUnique);
    }
    for i := 0 to citizens.Length
      invariant citizens[..] == ConvertPrefix(cs, i)
      invariant forall j :: 0 <= j < i ==> CheckCitizen(ids, cs[j]).Pass?
    {
      var c := citizens[i];
      assert c == cs[i];
      if c.citizenId in Elems(c.relatives) {
        FirstFailureAt(ids, cs, i);
        return Fail(SelfRelative);
      }
      if !(Elems(c.relatives) <= ids) {
        FirstFailureAt(ids, cs, i);
        return Fail(RelativeNotFound);
      }
      var date := Parse(c.birthDate.text);
      if date.None? {
        FirstFailureAt(ids, cs, i);
        return Fail(BirthDateFormat);
      }
      citizens[i] := c.(birthDate := Parsed(date.value));
      assert citizens[..] == ConvertPrefix(cs, i + 1);
    }
    return Pass;
  }

  /** Acceptance gives unique ids, no self-relation, relatives inside the batch and parsed dates. */
  lemma AcceptedProperties(cs: seq<Citizen>)
    requires forall i :: 0 <= i < |cs| ==> cs[i].birthDate.Text?
    requires UniqueIds(cs) && FirstFailure(Ids(cs), cs).None?
    ensures forall a :: !Related(cs, a, a)
    ensures forall a, b :: Related(cs, a, b) ==> b in Ids(cs)
    ensures StoredDates(ConvertPrefix(cs, |cs|))
  {
    forall a, b | Related(cs, a, b) ensures a != b && b in Ids(cs) {
      var i :| 0 <= i < |cs| && cs[i].citizenId == a && b in cs[i].relatives;
      assert CheckCitizen(Ids(cs), cs[i]).Pass?;
    }
    forall i | 0 <= i < |cs| ensures StoredDate(ConvertPrefix(cs, |cs|)[i].birthDate) {
      assert CheckCitizen(Ids(cs), cs[i]).Pass?;
    }
  }

  function SampleCitizen(citizenId: int, relatives: seq<int>): Citizen {
    Citizen(citizenId, "A", "A", "A", 0, "A", Text("01.01.2019"), Male, relatives)
  }

  /** Citizen 1 lists 2 as a relative, but 2 does not list 1. */
  function OneSided(): seq<Citizen> {
    [SampleCitizen(1, [2]), SampleCitizen(2, [])]
  }

  lemma OneSidedIds()
    ensures Ids(OneSided()) == {1, 2} && UniqueIds(OneSided())
  {
    var cs := OneSided();
    assert cs[0] in cs && cs[1] in cs;
  }

  lemma LegacyAcceptsOneSided()
    ensures FirstFailure(Ids(OneSided()), OneSided()).None?
  {
    var cs := OneSided();
    OneSidedIds();
    ParseFormat(Date(1, 1, 2019));
    assert Format(Date(1, 1, 2019)) == "01.01.2019";
    assert Elems([2]) == {2};
    assert CheckCitizen(Ids(cs), cs[0]).Pass?;
    assert CheckCitizen(Ids(cs), cs[1]).Pass?;
  }

  lemma DataRejectsOneSided()
    ensures ImportValidator.ValidateImport(OneSided()) == Fail(ImportValidator.NotDuplex)
  {
    var cs := OneSided();
    OneSidedIds();
    UniqueByCardinality(cs);
    assert FindCitizen(cs, 2) == Some(1);
    assert ImportValidator.RelativesOf(cs, 2) == [];
    assert ImportValidator.CheckRelatives(cs, 1, [2]) == Fail(ImportValidator.NotDuplex);
    DistinctByCardinality([2]);
    assert Elems([2]) == {2};
    assert ImportValidator.CheckCitizen(cs, cs[0]) == Fail(ImportValidator.NotDuplex);
    assert ImportValidator.CheckCitizens(cs, 0) == Fail(ImportValidator.NotDuplex);
  }

  /**
   * Unlike `DataValidator`, this validator accepts a one-sided relation: citizen 1 lists 2 but 2
   * does not list 1.
   */
  lemma AcceptsOneSidedRelation()
    ensures var cs := [SampleCitizen(1, [2]), SampleCitizen(2, [])];
      && UniqueIds(cs) && FirstFailure(Ids(cs), cs).None?
      && ImportValidator.ValidateImport(cs) == Fail(ImportValidator.NotDuplex)
  {
    OneSidedIds();
    LegacyAcceptsOneSided();
    DataRejectsOneSided();
  }
}
