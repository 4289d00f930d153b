/**
 * `patch_citizen`: the patched birth date is parsed first; then, in one transaction, the relatives
 * of the old and new relatives are updated and the patched fields of the citizen are overwritten;
 * the updated citizen is returned with its birth date as text.
 */
module PatchCitizen {
  import opened Wrappers
  import opened DateCodec
  import opened Registry
  import opened RelativesUpdate
  import ImportValidator

  /** `_parse_birth_date`: a `birth_date` text in the patch is replaced by the parsed date. */
  function ParseBirthDate(patch: CitizenPatch): (r: Result<CitizenPatch, Failure>)
    requires patch.birthDate.Some? ==> patch.birthDate.value.Text?
    ensures patch.birthDate.None? ==> r == Success(patch)
    ensures r.Failure? <==> patch.birthDate.Some? && Parse(patch.birthDate.value.text).None?
    ensures r.Failure? ==> r.error == BadDateFormat
    ensures r.Success? ==> r.value.(birthDate := patch.birthDate) == patch
    ensures r.Success? && patch.birthDate.Some? ==>
      && r.value.birthDate == Some(Parsed(Parse(patch.birthDate.value.text).value))
      && StoredDate(r.value.birthDate.value)
  {
    match patch.birthDate
    case None => Success(patch)
    case Some(text) =>
      match Parse(text.text)
      case None => Failure(BadDateFormat)
      case Some(date) => Success(patch.(birthDate := Some(Parsed(date))))
  }

  /** The patch that `'31.12.2019'` becomes. */
  lemma ParseBirthDateExample(patch: CitizenPatch)
    requires patch.birthDate == Some(Text("31.12.2019"))
    ensures ParseBirthDate(patch) == Success(patch.(birthDate := Some(Parsed(Date(31, 12, 2019)))))
  {
    ParseAcceptsExample();
  }

  function Pick<T>(o: Option<T>, current: T): T {
    if o.Some? then o.value else current
  }

  /** A field after the patch: the patched value where the patch names the field, the old one otherwise. */
  predicate Updated<T(==)>(o: Option<T>, before: T, after: T) {
    match o
    case Some(v) => after == v
    case None => after == before
  }

  /** `$set` of every field the patch names on one citizen. */
  function ApplyPatch(c: Citizen, p: CitizenPatch): (r: Citizen)
    ensures r.citizenId == c.citizenId
    ensures Updated(p.town, c.town, r.town) && Updated(p.street, c.street, r.street)
    ensures Updated(p.building, c.building, r.building) && Updated(p.apartment, c.apartment, r.apartment)
    ensures Updated(p.name, c.name, r.name) && Updated(p.birthDate, c.birthDate, r.birthDate)
    ensures Updated(p.gender, c.gender, r.gender) && Updated(p.relatives, c.relatives, r.relatives)
  {
    Citizen(c.citizenId, Pick(p.town, c.town), Pick(p.street, c.street), Pick(p.building, c.building),
            Pick(p.apartment, c.apartment), Pick(p.name, c.name), Pick(p.birthDate, c.birthDate),
            Pick(p.gender, c.gender), Pick(p.relatives, c.relatives))
  }

  /** Applying the same patch twice is applying it once. */
  lemma ApplyPatchIdempotent(c: Citizen, p: CitizenPatch)
    ensures ApplyPatch(ApplyPatch(c, p), p) == ApplyPatch(c, p)
  {
  }

  /**
   * `_write_citizen_update`: in the first import with that id holding the citizen, the first
   * citizen with that id gets the patched fields; the updated citizen is returned.
   */
  method WriteCitizenUpdate(store: Store, citizenId: int, importId: int, patch: CitizenPatch)
    returns (r: Result<Citizen, Failure>)
    modifies store
    ensures match FindDocument(old(store.imports), importId, {citizenId})
      case None => r == Failure(CitizenNotFound) && store.imports == old(store.imports)
      case Some(k) =>
        var cs := old(store.imports)[k].citizens;
        var c := FindCitizen(cs, citizenId).value;
        && r == Success(ApplyPatch(cs[c], patch))
        && store.imports == WithCitizens(old(store.imports), k, cs[c := ApplyPatch(cs[c], patch)])
  {
    var found := FindDocument(store.imports, importId, {citizenId});
    if found.None? {
      return Failure(CitizenNotFound);
    }
    var k := found.value;
    var cs := store.imports[k].citizens;
    var c := FindCitizen(cs, citizenId).value;
    var updated := ApplyPatch(cs[c], patch);
    store.imports := WithCitizens(store.imports, k, cs[c := updated]);
    return Success(updated);
  }

  /** `_get_citizen_data`: the citizen with its birth date rendered as `DD.MM.YYYY` text. */
  function CitizenData(c: Citizen): (r: Citizen)
    requires StoredDate(c.birthDate)
    ensures r.(birthDate := c.birthDate) == c
    ensures r.birthDate == Text(Format(c.birthDate.date)) && |r.birthDate.text| == 10
    ensures 1000 <= c.birthDate.date.year ==> ConvertBirthDate(r) == c
  {
    var text := Format(c.birthDate.date);
    if 1000 <= c.birthDate.date.year then
      ParseFormat(c.birthDate.date);
      c.(birthDate := Text(text))
    else
      c.(birthDate := Text(text))
  }

  /** The date of the handler tests comes back as `'31.12.2019'`. */
  lemma CitizenDataExample(c: Citizen)
    requires c.birthDate == Parsed(Date(31, 12, 2019))
    ensures CitizenData(c).birthDate == Text("31.12.2019")
  {
    assert Format(Date(31, 12, 2019)) == "31.12.2019";
  }

  /** The citizens of an import after a successful patch: relatives relinked, then the fields set. */
  function PatchedCitizens(cs: seq<Citizen>, citizenId: int, patch: CitizenPatch): (r: seq<Citizen>)
    requires citizenId in Ids(cs)
    ensures SameIds(r, cs)
  {
    var linked := if patch.relatives.Some? then Relinked(cs, citizenId, patch.relatives.value) else cs;
    var c := FindCitizen(cs, citizenId).value;
    linked[c := ApplyPatch(linked[c], patch)]
  }

  /**
   * A patch that passed `validate_citizen_patch`, and whose new relatives exist, keeps a consistent
   * import consistent: the relation stays symmetric and irreflexive.
   */
  lemma PatchKeepsConsistent(cs: seq<Citizen>, citizenId: int, patch: CitizenPatch)
    requires Consistent(cs) && citizenId in Ids(cs)
    requires ImportValidator.ValidateCitizenPatch(citizenId, patch).Pass?
    requires patch.relatives.Some? ==> forall x :: x in patch.relatives.value ==> x in Ids(cs)
    ensures Consistent(PatchedCitizens(cs, citizenId, patch))
  {
    var c := FindCitizen(cs, citizenId).value;
    var after := PatchedCitizens(cs, citizenId, patch);
    if patch.relatives.Some? {
      var rels := patch.relatives.value;
      var r := Relinked(cs, citizenId, rels);
      var target := r[c := r[c].(relatives := rels)];
      assert NoDuplicates(rels) && citizenId !in rels;
      var diff := RelativesDifference(Elems(cs[c].relatives), rels);
      assert diff.0 <= Ids(cs) by {
        forall x | x in diff.0 ensures x in Ids(cs) {
          assert x in rels;
        }
      }
      RelinkedKeepsConsistent(cs, citizenId, rels);
      assert after == r[c := ApplyPatch(r[c], patch)];
      forall i | 0 <= i < |after|
        ensures after[i].citizenId == target[i].citizenId && after[i].relatives == target[i].relatives
      {
        if i == c {
          assert after[i] == ApplyPatch(r[c], patch);
          assert after[i].relatives == rels;
        } else {
          assert after[i] == r[i] == target[i];
        }
      }
      ConsistentByRelation(after, target);
    } else {
      assert SameIds(after, cs) && forall i :: 0 <= i < |after| ==> after[i].relatives == cs[i].relatives;
      ConsistentByRelation(after, cs);
    }
  }

  /** A patch whose birth date, if any, is parsed keeps every stored date parsed. */
  lemma PatchKeepsDates(cs: seq<Citizen>, citizenId: int, patch: CitizenPatch)
    requires StoredDates(cs) && citizenId in Ids(cs)
    requires patch.birthDate.Some? ==> StoredDate(patch.birthDate.value)
    ensures StoredDates(PatchedCitizens(cs, citizenId, patch))
  {
  }

  /**
   * The checks `patch_citizen` makes after parsing the date: the citizen lookup, the existence of
   * the citizens to push onto, and the modified count of the bulk write.
   */
  function PatchCheck(imports: seq<Import>, importId: int, citizenId: int, p: CitizenPatch): Outcome<Failure>
    requires ValidImports(imports)
  {
    if !(0 <= importId < |imports| && citizenId in Ids(imports[importId].citizens)) then Fail(CitizenNotFound)
    else if p.relatives.None? then Pass
    else
      var cs := imports[importId].citizens;
      var diff := RelativesDifference(Elems(cs[FindCitizen(cs, citizenId).value].relatives), p.relatives.value);
      var requests := DbRequests(diff.0, diff.1, importId, citizenId);
      if !(diff.0 <= Ids(cs)) then Fail(RelativesNotFound)
      else if BulkModified(imports, requests) != |requests| then Fail(ModifiedCountMismatch)
      else Pass
  }

  /** The citizen `patch_citizen` returns: the patched citizen with its birth date as text. */
  function PatchedCitizen(cs: seq<Citizen>, citizenId: int, p: CitizenPatch): Citizen
    requires StoredDates(cs) && citizenId in Ids(cs)
    requires p.birthDate.Some? ==> StoredDate(p.birthDate.value)
  {
    PatchKeepsDates(cs, citizenId, p);
    CitizenData(PatchedCitizens(cs, citizenId, p)[FindCitizen(cs, citizenId).value])
  }

  /** The outcome of `patch_citizen` once the birth date is parsed. */
  function PatchOutcome(imports: seq<Import>, importId: int, citizenId: int, p: CitizenPatch)
    : (r: Result<(Citizen, int), Failure>)
    requires ValidImports(imports)
    requires p.birthDate.Some? ==> StoredDate(p.birthDate.value)
    ensures r.Success? ==> r.value.1 == 201
  {
    match PatchCheck(imports, importId, citizenId, p)
    case Fail(e) => Failure(e)
    case Pass => Success((PatchedCitizen(imports[importId].citizens, citizenId, p), 201))
  }

  /** The outcome of `patch_citizen` on a valid `imports` collection. */
  function PatchResult(imports: seq<Import>, importId: int, citizenId: int, patch: CitizenPatch)
    : (r: Result<(Citizen, int), Failure>)
    requires ValidImports(imports)
    requires patch.birthDate.Some? ==> patch.birthDate.value.Text?
    ensures r.Success? ==> r.value.1 == 201
  {
    match ParseBirthDate(patch)
    case Failure(e) => Failure(e)
    case Success(p) => PatchOutcome(imports, importId, citizenId, p)
  }

  /** Every field but the birth date after a patch: the patched value where named, the old one otherwise. */
  predicate FieldsUpdated(p: CitizenPatch, before: Citizen, after: Citizen) {
    && after.citizenId == before.citizenId
    && Updated(p.town, before.town, after.town) && Updated(p.street, before.street, after.street)
    && Updated(p.building, before.building, after.building)
    && Updated(p.apartment, before.apartment, after.apartment)
    && Updated(p.name, before.name, after.name) && Updated(p.gender, before.gender, after.gender)
    && Updated(p.relatives, before.relatives, after.relatives)
  }

  /**
   * Once the date is parsed, `patch_citizen` succeeds exactly when the checks pass, and answers the
   * citizen as it is now stored at its old position: the named fields patched, the others kept, and
   * the stored date rendered as text, which reads back as that date.
   */
  lemma PatchOutcomeReturnsStored(imports: seq<Import>, importId: int, citizenId: int, p: CitizenPatch)
    requires ValidImports(imports)
    requires p.birthDate.Some? ==> StoredDate(p.birthDate.value)
    ensures PatchOutcome(imports, importId, citizenId, p).Success? <==> PatchCheck(imports, importId, citizenId, p).Pass?
    ensures PatchOutcome(imports, importId, citizenId, p).Failure? ==>
      PatchOutcome(imports, importId, citizenId, p).error == PatchCheck(imports, importId, citizenId, p).error
    ensures PatchOutcome(imports, importId, citizenId, p).Success? ==>
      && 0 <= importId < |imports| && citizenId in Ids(imports[importId].citizens)
      && var cs := imports[importId].citizens;
         var c := FindCitizen(cs, citizenId).value;
         var stored := PatchedCitizens(cs, citizenId, p)[c];
         var answer := PatchOutcome(imports, importId, citizenId, p).value.0;
         && stored.citizenId == citizenId
         && FieldsUpdated(p, cs[c], stored) && Updated(p.birthDate, cs[c].birthDate, stored.birthDate)
         && StoredDate(stored.birthDate)
         && answer.(birthDate := stored.birthDate) == stored
         && answer.birthDate == Text(Format(stored.birthDate.date))
         && (1000 <= stored.birthDate.date.year ==> ConvertBirthDate(answer) == stored)
  {
    if PatchCheck(imports, importId, citizenId, p).Pass? {
      var cs := imports[importId].citizens;
      var c := FindCitizen(cs, citizenId).value;
      var linked := if p.relatives.Some? then Relinked(cs, citizenId, p.relatives.value) else cs;
      if p.relatives.Some? {
        RelinkedKeepsFields(cs, citizenId, p.relatives.value, c);
      }
      assert linked[c].(relatives := cs[c].relatives) == cs[c];
      var stored := PatchedCitizens(cs, citizenId, p)[c];
      assert stored == ApplyPatch(linked[c], p);
      PatchKeepsDates(cs, citizenId, p);
      assert StoredDate(stored.birthDate);
    }
  }

  /**
   * `patch_citizen` on a valid collection: a date that does not parse is refused; on success the
   * answer is the citizen with the named fields patched and the others kept, and its date is the
   * patched date, or the stored one, as `DD.MM.YYYY` text; from year 1000 on, a patched date comes
   * back exactly as it was sent.
   */
  lemma PatchResultReturnsStored(imports: seq<Import>, importId: int, citizenId: int, patch: CitizenPatch)
    requires ValidImports(imports)
    requires patch.birthDate.Some? ==> patch.birthDate.value.Text?
    ensures patch.birthDate.Some? && Parse(patch.birthDate.value.text).None? ==>
      PatchResult(imports, importId, citizenId, patch) == Failure(BadDateFormat)
    ensures PatchResult(imports, importId, citizenId, patch).Success? ==>
      && 0 <= importId < |imports| && citizenId in Ids(imports[importId].citizens)
      && var cs := imports[importId].citizens;
         var c := FindCitizen(cs, citizenId).value;
         var answer := PatchResult(imports, importId, citizenId, patch).value.0;
         && answer.citizenId == citizenId
         && FieldsUpdated(patch, cs[c], answer)
         && (patch.birthDate.None? ==>
               StoredDate(cs[c].birthDate) && answer.birthDate == Text(Format(cs[c].birthDate.date)))
         && (patch.birthDate.Some? ==>
               && Parse(patch.birthDate.value.text).Some?
               && answer.birthDate == Text(Format(Parse(patch.birthDate.value.text).value))
               && (1000 <= Parse(patch.birthDate.value.text).value.year ==> answer.birthDate == patch.birthDate.value))
  {
    var parsed := ParseBirthDate(patch);
    if parsed.Success? {
      var p := parsed.value;
      PatchOutcomeReturnsStored(imports, importId, citizenId, p);
      if PatchOutcome(imports, importId, citizenId, p).Success? {
        var cs := imports[importId].citizens;
        var c := FindCitizen(cs, citizenId).value;
        assert cs[c] in cs;
        if patch.birthDate.Some? && 1000 <= Parse(patch.birthDate.value.text).value.year {
          FormatParse(patch.birthDate.value.text);
        }
      }
    }
  }

  /**
   * A patch that passed `validate_citizen_patch` and passes the checks keeps a consistent import
   * consistent.
   */
  lemma PatchCheckKeepsConsistent(imports: seq<Import>, importId: int, citizenId: int, p: CitizenPatch)
    requires ValidImports(imports)
    requires 0 <= importId < |imports| && Consistent(imports[importId].citizens)
    requires ImportValidator.ValidateCitizenPatch(citizenId, p).Pass?
    requires PatchCheck(imports, importId, citizenId, p).Pass?
    ensures Consistent(PatchedCitizens(imports[importId].citizens, citizenId, p))
  {
    var cs := imports[importId].citizens;
    var c := FindCitizen(cs, citizenId).value;
    if p.relatives.Some? {
      var diff := RelativesDifference(Elems(cs[c].relatives), p.relatives.value);
      forall x | x in p.relatives.value ensures x in Ids(cs) {
        if x !in cs[c].relatives {
          assert x in diff.0;
        }
      }
    }
    PatchKeepsConsistent(cs, citizenId, p);
  }

  /**
   * On a consistent import holding the citizen, the checks fail only when the patch names a
   * relative missing from the import: the modified count always matches.
   */
  lemma PatchCheckFailsOnlyOnUnknownRelatives(imports: seq<Import>, importId: int, citizenId: int, p: CitizenPatch)
    requires ValidImports(imports)
    requires 0 <= importId < |imports| && Consistent(imports[importId].citizens)
    requires citizenId in Ids(imports[importId].citizens)
    ensures PatchCheck(imports, importId, citizenId, p).Pass? <==>
      (p.relatives.None? || forall x :: x in p.relatives.value ==> x in Ids(imports[importId].citizens))
    ensures PatchCheck(imports, importId, citizenId, p).Fail? ==>
      PatchCheck(imports, importId, citizenId, p).error == RelativesNotFound
  {
    var cs := imports[importId].citizens;
    var c := FindCitizen(cs, citizenId).value;
    if p.relatives.Some? {
      var diff := RelativesDifference(Elems(cs[c].relatives), p.relatives.value);
      assert forall x :: x in cs[c].relatives ==> x in Ids(cs);
      if diff.0 <= Ids(cs) {
        CountMatches(imports, importId, citizenId, p.relatives.value);
        forall x | x in p.relatives.value ensures x in Ids(cs) {
          if x !in cs[c].relatives {
            assert x in diff.0;
          }
        }
      } else {
        assert diff.0 <= Elems(p.relatives.value);
        assert (forall x :: x in p.relatives.value ==> x in Ids(cs)) ==> diff.0 <= Ids(cs);
      }
    }
  }

  /**
   * `patch_citizen` keeps a consistent import consistent when the patch passed
   * `validate_citizen_patch`, whether it succeeds or fails.
   */
  lemma PatchResultKeepsConsistent(imports: seq<Import>, importId: int, citizenId: int, patch: CitizenPatch)
    requires ValidImports(imports)
    requires patch.birthDate.Some? ==> patch.birthDate.value.Text?
    requires 0 <= importId < |imports| && Consistent(imports[importId].citizens)
    requires ImportValidator.ValidateCitizenPatch(citizenId, patch).Pass?
    ensures PatchResult(imports, importId, citizenId, patch).Success? ==>
      Consistent(PatchedCitizens(imports[importId].citizens, citizenId, ParseBirthDate(patch).value))
  {
    if PatchResult(imports, importId, citizenId, patch).Success? {
      var p := ParseBirthDate(patch).value;
      assert p.relatives == patch.relatives;
      PatchCheckKeepsConsistent(imports, importId, citizenId, p);
    }
  }

  /**
   * `patch_citizen` on a store holding only imports written by `post_import`: it returns the
   * outcome `PatchResult` describes; every failure leaves the store as it was (the transaction is
   * aborted), and on success the import holds the patched citizens.
   */
  method PatchCitizen(store: Store, importId: int, citizenId: int, patch: CitizenPatch)
    returns (r: Result<(Citizen, int), Failure>)
    requires store.Valid()
    requires patch.birthDate.Some? ==> patch.birthDate.value.Text?
    modifies store
    ensures store.Valid()
    ensures r == PatchResult(old(store.imports), importId, citizenId, patch)
    ensures r.Failure? ==> store.imports == old(store.imports)
    ensures r.Success? ==>
      store.imports == WithCitizens(old(store.imports), importId,
        PatchedCitizens(old(store.imports)[importId].citizens, citizenId, ParseBirthDate(patch).value))
    ensures r.Success? ==>
      var c := FindCitizen(old(store.imports)[importId].citizens, citizenId).value;
      && StoredDate(store.imports[importId].citizens[c].birthDate)
      && r.value.0 == CitizenData(store.imports[importId].citizens[c])
  {
    var parsed := ParseBirthDate(patch);
    if parsed.Failure? {
      return Failure(parsed.error);
    }
    ghost var before := store.imports;
    PatchOutcomeReturnsStored(before, importId, citizenId, parsed.value);
    r := UpdateCitizen(store, importId, citizenId, parsed.value);
  }

  /**
   * The transaction of `patch_citizen`: the relatives update, then the field write, both undone
   * when either fails.
   */
  method UpdateCitizen(store: Store, importId: int, citizenId: int, p: CitizenPatch)
    returns (r: Result<(Citizen, int), Failure>)
    requires store.Valid()
    requires p.birthDate.Some? ==> StoredDate(p.birthDate.value)
    modifies store
    ensures store.Valid()
    ensures r == PatchOutcome(old(store.imports), importId, citizenId, p)
    ensures r.Failure? ==> store.imports == old(store.imports)
    ensures r.Success? ==>
      store.imports == WithCitizens(old(store.imports), importId,
        PatchedCitizens(old(store.imports)[importId].citizens, citizenId, p))
    ensures r.Success? ==>
      var c := FindCitizen(old(store.imports)[importId].citizens, citizenId).value;
      && StoredDate(store.imports[importId].citizens[c].birthDate)
      && r.value.0 == CitizenData(store.imports[importId].citizens[c])
  {
    var snapshot := store.imports;
    ghost var found := 0 <= importId < |snapshot| && citizenId in Ids(snapshot[importId].citizens);
    CheckMatchesEffect(snapshot, importId, citizenId, p);
    var relinked := UpdateRelatives(store, citizenId, importId, p);
    if relinked.Fail? {
      store.imports := snapshot;
      return Failure(relinked.error);
    }
    WriteAfterRelink(snapshot, store.imports, importId, citizenId, p);
    var written := WriteCitizenUpdate(store, citizenId, importId, p);
    if written.Failure? {
      assert !found;
      store.imports := snapshot;
      return Failure(written.error);
    }
    assert found;
    ghost var cs := snapshot[importId].citizens;
    ghost var linked := WithCitizens(snapshot, importId, PatchedCitizens(cs, citizenId, p));
    assert store.imports == linked by {
      var relinkedCitizens := if p.relatives.Some? then Relinked(cs, citizenId, p.relatives.value) else cs;
      WithCitizensTwice(snapshot, importId, relinkedCitizens, PatchedCitizens(cs, citizenId, p));
    }
    assert PatchCheck(snapshot, importId, citizenId, p).Pass?;
    assert written.value == PatchedCitizens(cs, citizenId, p)[FindCitizen(cs, citizenId).value];
    PatchOutcomeReturnsStored(snapshot, importId, citizenId, p);
    r := Success((CitizenData(written.value), 201));
  }

  /** Writing the citizens of one import twice keeps only the second write. */
  lemma WithCitizensTwice(imports: seq<Import>, k: nat, first: seq<Citizen>, second: seq<Citizen>)
    requires k < |imports|
    ensures WithCitizens(WithCitizens(imports, k, first), k, second) == WithCitizens(imports, k, second)
  {
  }

  /**
   * With `relatives` in the patch, the checks fail exactly as the relatives update does; after a
   * successful update the import holds the relinked citizens.
   */
  lemma CheckMatchesEffect(snapshot: seq<Import>, importId: int, citizenId: int, p: CitizenPatch)
    requires ValidImports(snapshot)
    ensures p.relatives.None? ==> UpdateRelativesEffect(snapshot, citizenId, importId, p) == (Pass, snapshot)
    ensures p.relatives.Some? ==>
      PatchCheck(snapshot, importId, citizenId, p) == UpdateRelativesEffect(snapshot, citizenId, importId, p).0
    ensures var effect := UpdateRelativesEffect(snapshot, citizenId, importId, p);
      var found := 0 <= importId < |snapshot| && citizenId in Ids(snapshot[importId].citizens);
      && (found && effect.0.Pass? ==>
           effect.1 == WithCitizens(snapshot, importId,
             if p.relatives.Some? then Relinked(snapshot[importId].citizens, citizenId, p.relatives.value)
             else snapshot[importId].citizens))
      && (!found && effect.0.Pass? ==> effect.1 == snapshot)
  {
    UpdateRelativesByPosition(snapshot, citizenId, importId, p);
    if p.relatives.None? && 0 <= importId < |snapshot| {
      assert WithCitizens(snapshot, importId, snapshot[importId].citizens) == snapshot;
    }
  }

  /** After the relatives update, the field write finds the patched citizen where it was. */
  lemma WriteAfterRelink(snapshot: seq<Import>, current: seq<Import>, importId: int, citizenId: int, p: CitizenPatch)
    requires ValidImports(snapshot)
    requires p.birthDate.Some? ==> StoredDate(p.birthDate.value)
    requires 0 <= importId < |snapshot| && citizenId in Ids(snapshot[importId].citizens) ==>
      current == WithCitizens(snapshot, importId,
        if p.relatives.Some? then Relinked(snapshot[importId].citizens, citizenId, p.relatives.value)
        else snapshot[importId].citizens)
    requires !(0 <= importId < |snapshot| && citizenId in Ids(snapshot[importId].citizens)) ==> current == snapshot
    ensures var found := FindDocument(current, importId, {citizenId});
      found.Some? <==> 0 <= importId < |snapshot| && citizenId in Ids(snapshot[importId].citizens)
    ensures 0 <= importId < |snapshot| && citizenId in Ids(snapshot[importId].citizens) ==>
      var cs := snapshot[importId].citizens;
      var c := FindCitizen(cs, citizenId).value;
      var linked := current[importId].citizens;
      && FindDocument(current, importId, {citizenId}) == Some(importId as nat)
      && FindCitizen(linked, citizenId) == Some(c)
      && linked[c := ApplyPatch(linked[c], p)] == PatchedCitizens(cs, citizenId, p)
      && ValidImports(WithCitizens(snapshot, importId, PatchedCitizens(cs, citizenId, p)))
  {
    FindDocumentByPosition(snapshot, importId, {citizenId});
    if 0 <= importId < |snapshot| && citizenId in Ids(snapshot[importId].citizens) {
      RelinkedWrite(snapshot, importId, citizenId, p);
    }
  }

  /** The found case: the import at `importId` with its citizens relinked when the patch names relatives. */
  lemma RelinkedWrite(snapshot: seq<Import>, importId: int, citizenId: int, p: CitizenPatch)
    requires ValidImports(snapshot)
    requires p.birthDate.Some? ==> StoredDate(p.birthDate.value)
    requires 0 <= importId < |snapshot| && citizenId in Ids(snapshot[importId].citizens)
    ensures var cs := snapshot[importId].citizens;
      var c := FindCitizen(cs, citizenId).value;
      var linked := if p.relatives.Some? then Relinked(cs, citizenId, p.relatives.value) else cs;
      var current := WithCitizens(snapshot, importId, linked);
      && FindDocument(current, importId, {citizenId}) == Some(importId as nat)
      && current[importId].citizens == linked
      && FindCitizen(linked, citizenId) == Some(c)
      && linked[c := ApplyPatch(linked[c], p)] == PatchedCitizens(cs, citizenId, p)
      && ValidImports(WithCitizens(snapshot, importId, PatchedCitizens(cs, citizenId, p)))
  {
    var cs := snapshot[importId].citizens;
    var linked := if p.relatives.Some? then Relinked(cs, citizenId, p.relatives.value) else cs;
    var current := WithCitizens(snapshot, importId, linked);
    assert forall i :: 0 <= i < |current| ==> current[i].importId == i;
    SameIdSets(linked, cs);
    FindDocumentByPosition(current, importId, {citizenId});
    PatchKeepsDates(cs, citizenId, p);
  }
}
