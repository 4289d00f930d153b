/**
 * The relational part of `DataValidator`: once the JSON schema has passed, an import batch is
 * checked for unique citizen ids, then citizen by citizen for repeated relatives, self-relation,
 * unknown relatives and one-sided relations. A citizen patch is checked for repeated relatives
 * and self-relation.
 */
module ImportValidator {
  import opened Wrappers
  import opened Registry

  /** The `ValidationError` messages of the relational checks. */
  datatype ValidationError =
    | IdsNotUnique        // 'Citizens ids are not unique'
    | RelativesNotUnique  // 'Relatives ids should be unique'
    | SelfRelative        // 'Citizen can not be relative to himself'
    | RelativeNotFound    // 'Citizen relative does not exists'
    | NotDuplex           // 'Citizen relatives are not duplex'

  /** `citizen_relatives[relative_id]`: the relatives listed by the citizen with that id. */
  function RelativesOf(cs: seq<Citizen>, citizenId: int): seq<int> {
    match FindCitizen(cs, citizenId)
    case None => []
    case Some(k) => cs[k].relatives
  }

  /** Every check of the loop body passes for citizen `c`. */
  predicate CitizenPasses(cs: seq<Citizen>, c: Citizen) {
    && NoDuplicates(c.relatives)
    && c.citizenId !in c.relatives
    && forall r :: r in c.relatives ==> r in Ids(cs) && c.citizenId in RelativesOf(cs, r)
  }

  /**
   * The loop body stops at citizen `c` with error `e`: the duplicate check runs first, then the
   * self check, then each relative is checked for existence and then for the reverse link. The
   * relatives are visited in the order of a Python set, so which of an unknown relative and a
   * one-sided link is reported first is only known to exist.
   */
  predicate CitizenFailsWith(cs: seq<Citizen>, c: Citizen, e: ValidationError) {
    match e
    case IdsNotUnique => false
    case RelativesNotUnique => !NoDuplicates(c.relatives)
    case SelfRelative => NoDuplicates(c.relatives) && c.citizenId in c.relatives
    case RelativeNotFound =>
      && NoDuplicates(c.relatives) && c.citizenId !in c.relatives
      && exists r :: r in c.relatives && r !in Ids(cs)
    case NotDuplex =>
      && NoDuplicates(c.relatives) && c.citizenId !in c.relatives
      && exists r :: r in c.relatives && r in Ids(cs) && c.citizenId !in RelativesOf(cs, r)
  }

  /** The inner loop over one citizen's relatives (visited here in list order). */
  function CheckRelatives(cs: seq<Citizen>, citizenId: int, rels: seq<int>): (r: Outcome<ValidationError>)
    ensures r.Pass? <==> forall x :: x in rels ==> x in Ids(cs) && citizenId in RelativesOf(cs, x)
    ensures r.Fail? ==>
      || (r.error == RelativeNotFound && exists x :: x in rels && x !in Ids(cs))
      || (r.error == NotDuplex && exists x :: x in rels && x in Ids(cs) && citizenId !in RelativesOf(cs, x))
  {
    if rels == [] then Pass
    else
      var first := rels[0];
      assert first in rels;
      if first !in Ids(cs) then Fail(RelativeNotFound)
      else if citizenId !in RelativesOf(cs, first) then Fail(NotDuplex)
      else
        var rest := CheckRelatives(cs, citizenId, rels[1..]);
        assert forall x :: x in rels <==> x == first || x in rels[1..];
        rest
  }

  /** The loop body for one citizen. */
  function CheckCitizen(cs: seq<Citizen>, c: Citizen): (r: Outcome<ValidationError>)
    ensures r.Pass? <==> CitizenPasses(cs, c)
    ensures r.Fail? ==> CitizenFailsWith(cs, c, r.error)
  {
    DistinctByCardinality(c.relatives);
    if |Elems(c.relatives)| != |c.relatives| then Fail(RelativesNotUnique)
    else if c.citizenId in Elems(c.relatives) then Fail(SelfRelative)
    else CheckRelatives(cs, c.citizenId, c.relatives)
  }

  /** The loop over the citizens from position `i` on, in list order. */
  function CheckCitizens(cs: seq<Citizen>, i: nat): (r: Outcome<ValidationError>)
    requires i <= |cs|
    decreases |cs| - i
    ensures r.Pass? <==> forall j :: i <= j < |cs| ==> CitizenPasses(cs, cs[j])
    ensures r.Fail? ==>
      exists k :: i <= k < |cs| && (forall j :: i <= j < k ==> CitizenPasses(cs, cs[j]))
                 && CitizenFailsWith(cs, cs[k], r.error)
  {
    if i == |cs| then Pass
    else
      var here := CheckCitizen(cs, cs[i]);
      if here.Fail? then
        StopsHere(cs, i, here.error);
        here
      else
        var rest := CheckCitizens(cs, i + 1);
        PassesOn(cs, i, rest);
        rest
  }

  /** The loop stops at citizen `i` when its checks fail. */
  lemma StopsHere(cs: seq<Citizen>, i: nat, e: ValidationError)
    requires i < |cs| && CitizenFailsWith(cs, cs[i], e)
    ensures !(forall j :: i <= j < |cs| ==> CitizenPasses(cs, cs[j]))
    ensures exists k :: i <= k < |cs| && (forall j :: i <= j < k ==> CitizenPasses(cs, cs[j]))
                        && CitizenFailsWith(cs, cs[k], e)
  {
    assert !CitizenPasses(cs, cs[i]) by {
      match e
      case RelativeNotFound =>
        var r :| r in cs[i].relatives && r !in Ids(cs);
      case NotDuplex =>
        var r :| r in cs[i].relatives && r in Ids(cs) && cs[i].citizenId !in RelativesOf(cs, r);
      case _ =>
    }
  }

  /** When citizen `i` passes, the loop from `i` ends as the loop from `i + 1` does. */
  lemma PassesOn(cs: seq<Citizen>, i: nat, rest: Outcome<ValidationError>)
    requires i < |cs| && CitizenPasses(cs, cs[i])
    requires rest.Pass? <==> forall j :: i + 1 <= j < |cs| ==> CitizenPasses(cs, cs[j])
    requires rest.Fail? ==>
      exists k :: i + 1 <= k < |cs| && (forall j :: i + 1 <= j < k ==> CitizenPasses(cs, cs[j]))
                 && CitizenFailsWith(cs, cs[k], rest.error)
    ensures rest.Pass? <==> forall j :: i <= j < |cs| ==> CitizenPasses(cs, cs[j])
    ensures rest.Fail? ==>
      exists k :: i <= k < |cs| && (forall j :: i <= j < k ==> CitizenPasses(cs, cs[j]))
                 && CitizenFailsWith(cs, cs[k], rest.error)
  {
    if rest.Fail? {
      var k :| i + 1 <= k < |cs| && (forall j :: i + 1 <= j < k ==> CitizenPasses(cs, cs[j]))
               && CitizenFailsWith(cs, cs[k], rest.error);
      assert forall j :: i <= j < k ==> CitizenPasses(cs, cs[j]);
    }
  }

  /** With unique ids, every citizen passes the loop exactly when the batch is consistent. */
  lemma PassesIffConsistent(cs: seq<Citizen>)
    requires UniqueIds(cs)
    ensures (forall j :: 0 <= j < |cs| ==> CitizenPasses(cs, cs[j])) <==> Consistent(cs)
  {
    forall j | 0 <= j < |cs| ensures RelativesOf(cs, cs[j].citizenId) == cs[j].relatives {
      var k := FindCitizen(cs, cs[j].citizenId).value;
      assert k == j;
    }
    if forall j :: 0 <= j < |cs| ==> CitizenPasses(cs, cs[j]) {
      forall i, j | 0 <= i < |cs| && 0 <= j < |cs| && cs[j].citizenId in cs[i].relatives
        ensures cs[i].citizenId in cs[j].relatives
      {
        assert CitizenPasses(cs, cs[i]);
      }
    }
    if Consistent(cs) {
      forall j, r | 0 <= j < |cs| && r in cs[j].relatives
        ensures r in Ids(cs) && cs[j].citizenId in RelativesOf(cs, r)
      {
        var k := FindCitizen(cs, r).value;
        assert cs[k].citizenId in cs[j].relatives;
      }
    }
  }

  /**
   * `validate_import` after the schema: the batch is accepted exactly when it is consistent;
   * duplicate ids are reported first, and any other error comes from the first citizen, in list
   * order, that fails a check.
   */
  function ValidateImport(cs: seq<Citizen>): (r: Outcome<ValidationError>)
    ensures r.Pass? <==> Consistent(cs)
    ensures r == Fail(IdsNotUnique) <==> !UniqueIds(cs)
    ensures r.Fail? && r.error != IdsNotUnique ==>
      exists k :: 0 <= k < |cs| && (forall j :: 0 <= j < k ==> CitizenPasses(cs, cs[j]))
                 && CitizenFailsWith(cs, cs[k], r.error)
  {
    UniqueByCardinality(cs);
    if |Ids(cs)| != |cs| then Fail(IdsNotUnique)
    else
      PassesIffConsistent(cs);
      CheckCitizens(cs, 0)
  }

  /** An accepted batch describes a symmetric, irreflexive relation between its own citizens. */
  lemma AcceptedIsSymmetric(cs: seq<Citizen>)
    requires ValidateImport(cs).Pass?
    ensures forall a, b :: Related(cs, a, b) ==> Related(cs, b, a)
    ensures forall a :: !Related(cs, a, a)
    ensures forall a, b :: Related(cs, a, b) ==> b in Ids(cs)
  {
    ConsistentRelation(cs);
  }

  /** The empty batch is accepted. */
  lemma EmptyAccepted()
    ensures ValidateImport([]).Pass?
  {
  }

  /**
   * `validate_citizen_patch` after the schema: without `relatives` nothing is checked; otherwise
   * repeated relatives are reported before self-relation.
   */
  function ValidateCitizenPatch(citizenId: int, patch: CitizenPatch): (r: Outcome<ValidationError>)
    ensures patch.relatives.None? ==> r.Pass?
    ensures patch.relatives.Some? ==>
      (r.Pass? <==> NoDuplicates(patch.relatives.value) && citizenId !in patch.relatives.value)
    ensures r == Fail(RelativesNotUnique) <==> patch.relatives.Some? && !NoDuplicates(patch.relatives.value)
    ensures r.Fail? ==> r.error == RelativesNotUnique || r.error == SelfRelative
  {
    if patch.relatives.None? then Pass
    else
      var rels := patch.relatives.value;
      DistinctByCardinality(rels);
      if |Elems(rels)| != |rels| then Fail(RelativesNotUnique)
      else if citizenId in Elems(rels) then Fail(SelfRelative)
      else Pass
  }
}
