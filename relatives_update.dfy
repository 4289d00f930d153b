/**
 * `update_relatives`: when a patch carries `relatives`, the patched citizen's id is pushed onto the
 * relatives of every newly listed citizen and pulled from those of every citizen no longer listed,
 * through at most two `UpdateMany` requests sent in one bulk write.
 */
module RelativesUpdate {
  import opened Wrappers
  import opened Registry

  datatype Operation = Push | Pull

  /**
   * An `UpdateMany`: in every import with `importId`, `citizenId` is pushed onto (or pulled from)
   * the relatives of each citizen whose id is in `targets`, the `$[element]` array filter.
   */
  datatype Request = UpdateMany(importId: int, operation: Operation, citizenId: int, targets: set<int>)

  /** The update operator that names an operation. */
  function OperatorName(op: Operation): string {
    match op
    case Push => "$push"
    case Pull => "$pull"
  }

  /** `_make_update_relatives_request`: any operator other than `$push` and `$pull` is refused. */
  function MakeUpdateRelativesRequest(operation: string, importId: int, citizenId: int, targets: set<int>)
    : (r: Result<Request, Failure>)
    ensures r.Success? <==> operation == "$push" || operation == "$pull"
    ensures r.Failure? ==> r.error == InvalidOperation(operation)
    ensures r.Success? ==>
      && OperatorName(r.value.operation) == operation
      && r.value.importId == importId && r.value.citizenId == citizenId && r.value.targets == targets
  {
    if operation == "$push" then Success(UpdateMany(importId, Push, citizenId, targets))
    else if operation == "$pull" then Success(UpdateMany(importId, Pull, citizenId, targets))
    else Failure(InvalidOperation(operation))
  }

  /** The requests for a diff: one per non-empty set, the push request before the pull request. */
  function DbRequests(toPush: set<int>, toPull: set<int>, importId: int, citizenId: int): (rs: seq<Request>)
    ensures |rs| == (if toPush == {} then 0 else 1) + (if toPull == {} then 0 else 1)
    ensures forall q :: q in rs <==>
      || (toPush != {} && q == UpdateMany(importId, Push, citizenId, toPush))
      || (toPull != {} && q == UpdateMany(importId, Pull, citizenId, toPull))
    ensures |rs| == 2 ==> rs[0].operation == Push
  {
    (if toPush == {} then [] else [UpdateMany(importId, Push, citizenId, toPush)])
    + (if toPull == {} then [] else [UpdateMany(importId, Pull, citizenId, toPull)])
  }

  /** `_make_db_requests`: the loop over the `($push, to_push)` and `($pull, to_pull)` pairs. */
  method MakeDbRequests(toPush: set<int>, toPull: set<int>, importId: int, citizenId: int)
    returns (requests: seq<Request>)
    ensures requests == DbRequests(toPush, toPull, importId, citizenId)
  {
    var operations := ["$push", "$pull"];
    var targetSets := [toPush, toPull];
    requests := [];
    for i := 0 to 2
      invariant requests ==
        (if i >= 1 && toPush != {} then [UpdateMany(importId, Push, citizenId, toPush)] else [])
        + (if i >= 2 && toPull != {} then [UpdateMany(importId, Pull, citizenId, toPull)] else [])
    {
      if targetSets[i] != {} {
        var request := MakeUpdateRelativesRequest(operations[i], importId, citizenId, targetSets[i]);
        requests := requests + [request.value];
      }
    }
  }

  /**
   * `_get_relatives_difference`: the ids that must gain the citizen as a relative and those that
   * must lose it. Repeated ids in the new list collapse, since only its set is used.
   */
  function RelativesDifference(oldRelatives: set<int>, newRelatives: seq<int>): (r: (set<int>, set<int>))
    ensures r.0 !! r.1
    ensures r.0 !! oldRelatives && r.1 <= oldRelatives
    ensures (oldRelatives - r.1) + r.0 == Elems(newRelatives)
    ensures r.0 == {} && r.1 == {} <==> oldRelatives == Elems(newRelatives)
  {
    (Elems(newRelatives) - oldRelatives, oldRelatives - Elems(newRelatives))
  }

  /** A repeated id in the new list changes nothing: `[2, 3, 4, 4]` against `{1, 2, 3}`. */
  lemma DifferenceIgnoresRepeats()
    ensures RelativesDifference({1, 2, 3}, [2, 3, 4, 4]) == ({4}, {1})
  {
    var e := Elems([2, 3, 4, 4]);
    assert [2, 3, 4, 4][0] == 2 && [2, 3, 4, 4][1] == 3 && [2, 3, 4, 4][2] == 4;
    assert e == {2, 3, 4};
    assert e - {1, 2, 3} == {4};
    assert {1, 2, 3} - e == {1};
  }

  /** `$pull`: every occurrence of `x` is removed and the rest keeps its order. */
  function RemoveAll(s: seq<int>, x: int): (r: seq<int>)
    ensures Elems(r) == Elems(s) - {x}
    ensures NoDuplicates(s) ==> NoDuplicates(r)
    ensures forall y :: y in r <==> y in s && y != x
    ensures |r| <= |s| && (x in s <==> |r| < |s|)
  {
    if s == [] then []
    else
      var rest := RemoveAll(s[1..], x);
      assert Elems(s) == {s[0]} + Elems(s[1..]) by {
        assert forall y :: y in s <==> y == s[0] || y in s[1..];
      }
      if s[0] == x then rest
      else
        assert Elems([s[0]] + rest) == {s[0]} + Elems(rest) by {
          assert forall y :: y in [s[0]] + rest <==> y == s[0] || y in rest;
        }
        assert NoDuplicates(s) ==> NoDuplicates(s[1..]) by {
          if NoDuplicates(s) {
            forall i, j | 0 <= i < j < |s[1..]| ensures s[1..][i] != s[1..][j] {
              assert s[1..][i] == s[i + 1] && s[1..][j] == s[j + 1];
            }
          }
        }
        [s[0]] + rest
  }

  /** One citizen's relatives after the operation. */
  function Linked(relatives: seq<int>, op: Operation, citizenId: int): seq<int> {
    match op
    case Push => relatives + [citizenId]
    case Pull => RemoveAll(relatives, citizenId)
  }

  /** The effect of a request on the citizens of a matching import: only targets' relatives change. */
  function Relink(cs: seq<Citizen>, op: Operation, citizenId: int, targets: set<int>): (r: seq<Citizen>)
    ensures SameIds(r, cs)
    ensures forall i :: 0 <= i < |cs| ==> r[i].(relatives := cs[i].relatives) == cs[i]
    ensures forall i :: 0 <= i < |cs| && cs[i].citizenId !in targets ==> r[i] == cs[i]
  {
    seq(|cs|, i requires 0 <= i < |cs| =>
      if cs[i].citizenId in targets then cs[i].(relatives := Linked(cs[i].relatives, op, citizenId)) else cs[i])
  }

  /** A request applied to the `imports` collection: every import with its id is updated. */
  function ApplyRequest(imports: seq<Import>, q: Request): (r: seq<Import>)
    ensures |r| == |imports|
    ensures forall i :: 0 <= i < |imports| ==> r[i].importId == imports[i].importId
    ensures forall i :: 0 <= i < |imports| && imports[i].importId != q.importId ==> r[i] == imports[i]
  {
    seq(|imports|, i requires 0 <= i < |imports| =>
      if imports[i].importId == q.importId
      then imports[i].(citizens := Relink(imports[i].citizens, q.operation, q.citizenId, q.targets))
      else imports[i])
  }

  /** The requests of a bulk write applied in order. */
  function ApplyAll(imports: seq<Import>, qs: seq<Request>): (r: seq<Import>)
    ensures |r| == |imports|
    ensures forall i :: 0 <= i < |imports| ==> r[i].importId == imports[i].importId
  {
    if qs == [] then imports else ApplyRequest(ApplyAll(imports, qs[..|qs| - 1]), qs[|qs| - 1])
  }

  /** `modified_count` of one write: the number of documents it changed. */
  function ModifiedCount(before: seq<Import>, after: seq<Import>): nat
    requires |after| == |before|
  {
    |set i | 0 <= i < |before| && before[i] != after[i]|
  }

  /** `modified_count` of a bulk write: the sum over its requests. */
  function BulkModified(imports: seq<Import>, qs: seq<Request>): nat {
    if qs == [] then 0
    else
      var before := ApplyAll(imports, qs[..|qs| - 1]);
      BulkModified(imports, qs[..|qs| - 1]) + ModifiedCount(before, ApplyRequest(before, qs[|qs| - 1]))
  }

  /** What `_get_relatives` finds: the relatives of the citizen in the first import holding it, as a set. */
  function StoredRelatives(imports: seq<Import>, importId: int, citizenId: int): (r: Option<set<int>>)
    ensures r.None? <==> FindDocument(imports, importId, {citizenId}).None?
    ensures r.Some? ==>
      exists i, c :: 0 <= i < |imports| && imports[i].importId == importId && c in imports[i].citizens
                     && c.citizenId == citizenId && r.value == Elems(c.relatives)
  {
    match FindDocument(imports, importId, {citizenId})
    case None => None
    case Some(k) =>
      var cs := imports[k].citizens;
      var c := FindCitizen(cs, citizenId).value;
      assert cs[c] in cs;
      Some(Elems(cs[c].relatives))
  }

  /** `_get_relatives`: fails when the import or the citizen is missing. */
  method GetRelatives(store: Store, citizenId: int, importId: int) returns (r: Result<set<int>, Failure>)
    ensures r.Failure? <==> StoredRelatives(store.imports, importId, citizenId).None?
    ensures r.Failure? ==> r.error == CitizenNotFound
    ensures r.Success? ==> StoredRelatives(store.imports, importId, citizenId) == Some(r.value)
  {
    var found := FindDocument(store.imports, importId, {citizenId});
    if found.None? {
      return Failure(CitizenNotFound);
    }
    var citizens := store.imports[found.value].citizens;
    var position := FindCitizen(citizens, citizenId);
    r := Success(Elems(citizens[position.value].relatives));
  }

  /** `_check_all_citizens_exist`: nothing to check for no ids; otherwise one import must hold them all. */
  method CheckAllCitizensExist(store: Store, ids: set<int>, importId: int) returns (r: Outcome<Failure>)
    ensures r.Pass? <==>
      ids == {} || exists i :: 0 <= i < |store.imports| && store.imports[i].importId == importId
                               && ids <= Ids(store.imports[i].citizens)
    ensures r.Fail? ==> r.error == RelativesNotFound
  {
    if ids == {} {
      return Pass;
    }
    var found := FindDocument(store.imports, importId, ids);
    if found.None? {
      return Fail(RelativesNotFound);
    }
    return Pass;
  }

  /**
   * `_write_relatives_update`: the requests are applied in order, and the write fails when the
   * number of modified documents differs from the number of requests.
   */
  method WriteRelativesUpdate(store: Store, requests: seq<Request>) returns (r: Outcome<Failure>)
    modifies store
    ensures store.imports == ApplyAll(old(store.imports), requests)
    ensures r.Pass? <==> BulkModified(old(store.imports), requests) == |requests|
    ensures r.Fail? ==> r.error == ModifiedCountMismatch
  {
    if requests != [] {
      var before := store.imports;
      store.imports := ApplyAll(before, requests);
      if BulkModified(before, requests) != |requests| {
        return Fail(ModifiedCountMismatch);
      }
    }
    return Pass;
  }

  /** What `update_relatives` returns and leaves in the `imports` collection. */
  function UpdateRelativesEffect(imports: seq<Import>, citizenId: int, importId: int, patch: CitizenPatch)
    : (Outcome<Failure>, seq<Import>)
  {
    if patch.relatives.None? then (Pass, imports)
    else
      match StoredRelatives(imports, importId, citizenId)
      case None => (Fail(CitizenNotFound), imports)
      case Some(oldRelatives) =>
        var diff := RelativesDifference(oldRelatives, patch.relatives.value);
        if diff.0 != {} && FindDocument(imports, importId, diff.0).None? then (Fail(RelativesNotFound), imports)
        else
          var requests := DbRequests(diff.0, diff.1, importId, citizenId);
          var outcome := if BulkModified(imports, requests) == |requests| then Pass else Fail(ModifiedCountMismatch);
          (outcome, ApplyAll(imports, requests))
  }

  /**
   * `update_relatives`: a no-op without `relatives`; otherwise it reads the old relatives, diffs
   * them against the new list, checks that every citizen to push onto exists, and writes the
   * requests.
   */
  method UpdateRelatives(store: Store, citizenId: int, importId: int, patch: CitizenPatch)
    returns (r: Outcome<Failure>)
    modifies store
    ensures r == UpdateRelativesEffect(old(store.imports), citizenId, importId, patch).0
    ensures store.imports == UpdateRelativesEffect(old(store.imports), citizenId, importId, patch).1
  {
    if patch.relatives.None? {
      return Pass;
    }
    var oldRelatives := GetRelatives(store, citizenId, importId);
    if oldRelatives.Failure? {
      return Fail(oldRelatives.error);
    }
    var diff := RelativesDifference(oldRelatives.value, patch.relatives.value);
    r := CheckAllCitizensExist(store, diff.0, importId);
    if r.Fail? {
      return;
    }
    var requests := MakeDbRequests(diff.0, diff.1, importId, citizenId);
    r := WriteRelativesUpdate(store, requests);
  }

  /**
   * The combined effect of the two requests on the citizens of one import: the push to the new
   * relatives, then the pull from the dropped ones.
   */
  function Relinked(cs: seq<Citizen>, citizenId: int, newRelatives: seq<int>): (r: seq<Citizen>)
    requires citizenId in Ids(cs)
    ensures SameIds(r, cs)
  {
    var diff := RelativesDifference(Elems(cs[FindCitizen(cs, citizenId).value].relatives), newRelatives);
    Relink(Relink(cs, Push, citizenId, diff.0), Pull, citizenId, diff.1)
  }

  /** Relinking changes only relatives lists: every other field of every citizen stays as it was. */
  lemma RelinkedKeepsFields(cs: seq<Citizen>, citizenId: int, newRelatives: seq<int>, i: int)
    requires citizenId in Ids(cs) && 0 <= i < |cs|
    ensures |Relinked(cs, citizenId, newRelatives)| == |cs|
    ensures Relinked(cs, citizenId, newRelatives)[i].(relatives := cs[i].relatives) == cs[i]
  {
    var diff := RelativesDifference(Elems(cs[FindCitizen(cs, citizenId).value].relatives), newRelatives);
    var pushed := Relink(cs, Push, citizenId, diff.0);
    var pulled := Relink(pushed, Pull, citizenId, diff.1);
    assert pushed[i].(relatives := cs[i].relatives) == cs[i];
    assert pulled[i].(relatives := pushed[i].relatives) == pushed[i];
  }

  /** With import ids equal to positions, a request changes at most the import at its id. */
  lemma ApplyRequestByPosition(imports: seq<Import>, q: Request)
    requires forall i :: 0 <= i < |imports| ==> imports[i].importId == i
    ensures ApplyRequest(imports, q) ==
      if 0 <= q.importId < |imports|
      then imports[q.importId := imports[q.importId].(citizens :=
             Relink(imports[q.importId].citizens, q.operation, q.citizenId, q.targets))]
      else imports
  {
  }

  /** Replacing one document counts as one modification exactly when the document changed. */
  lemma ModifiedOne(before: seq<Import>, k: nat, x: Import)
    requires k < |before|
    ensures ModifiedCount(before, before[k := x]) == if x == before[k] then 0 else 1
  {
    var changed := set i | 0 <= i < |before| && before[i] != before[k := x][i];
    if x == before[k] {
      assert changed == {};
    } else {
      assert changed == {k};
    }
  }

  /** A request that targets nobody changes nothing. */
  lemma RelinkNobody(cs: seq<Citizen>, op: Operation, citizenId: int)
    ensures Relink(cs, op, citizenId, {}) == cs
  {
  }

  lemma ApplyOne(imports: seq<Import>, q: Request)
    ensures ApplyAll(imports, [q]) == ApplyRequest(imports, q)
  {
    assert [q][..0] == [];
  }

  lemma ApplyTwo(imports: seq<Import>, q1: Request, q2: Request)
    ensures ApplyAll(imports, [q1, q2]) == ApplyRequest(ApplyRequest(imports, q1), q2)
  {
    assert [q1, q2][..1] == [q1];
    ApplyOne(imports, q1);
  }

  lemma BulkOne(imports: seq<Import>, q: Request)
    ensures BulkModified(imports, [q]) == ModifiedCount(imports, ApplyRequest(imports, q))
  {
    assert [q][..0] == [];
  }

  lemma BulkTwo(imports: seq<Import>, q1: Request, q2: Request)
    ensures var middle := ApplyRequest(imports, q1);
      BulkModified(imports, [q1, q2])
        == ModifiedCount(imports, middle) + ModifiedCount(middle, ApplyRequest(middle, q2))
  {
    assert [q1, q2][..1] == [q1];
    ApplyOne(imports, q1);
    BulkOne(imports, q1);
  }

  /** The citizens of import `k` replaced, the other imports kept. */
  function WithCitizens(imports: seq<Import>, k: nat, cs: seq<Citizen>): seq<Import>
    requires k < |imports|
  {
    imports[k := imports[k].(citizens := cs)]
  }

  /**
   * With import ids equal to positions, the requests for a push set and a pull set replace the
   * citizens of the import by their pushed-then-pulled form and leave every other import as it was.
   */
  lemma {:induction false} ApplyPushPull(imports: seq<Import>, importId: int, citizenId: int, toPush: set<int>, toPull: set<int>)
    requires forall i :: 0 <= i < |imports| ==> imports[i].importId == i
    requires 0 <= importId < |imports|
    ensures var cs := imports[importId].citizens;
      ApplyAll(imports, DbRequests(toPush, toPull, importId, citizenId))
        == WithCitizens(imports, importId, Relink(Relink(cs, Push, citizenId, toPush), Pull, citizenId, toPull))
  {
    var cs := imports[importId].citizens;
    var push := UpdateMany(importId, Push, citizenId, toPush);
    var pull := UpdateMany(importId, Pull, citizenId, toPull);
    var pushed := Relink(cs, Push, citizenId, toPush);
    var requests := DbRequests(toPush, toPull, importId, citizenId);
    if toPush != {} && toPull != {} {
      assert requests == [push, pull];
      ApplyTwo(imports, push, pull);
      ApplyRequestByPosition(imports, push);
      ApplyRequestByPosition(WithCitizens(imports, importId, pushed), pull);
    } else if toPush != {} {
      assert requests == [push];
      RelinkNobody(pushed, Pull, citizenId);
      ApplyOne(imports, push);
      ApplyRequestByPosition(imports, push);
    } else if toPull != {} {
      assert requests == [pull];
      RelinkNobody(cs, Push, citizenId);
      ApplyOne(imports, pull);
      ApplyRequestByPosition(imports, pull);
    } else {
      assert requests == [];
      RelinkNobody(cs, Push, citizenId);
      RelinkNobody(pushed, Pull, citizenId);
      assert WithCitizens(imports, importId, cs) == imports;
    }
  }

  /**
   * With import ids equal to positions, the bulk write of a diff replaces the citizens of the
   * import by their relinked form and leaves every other import as it was.
   */
  lemma ApplyDbRequests(imports: seq<Import>, importId: int, citizenId: int, newRelatives: seq<int>)
    requires forall i :: 0 <= i < |imports| ==> imports[i].importId == i
    requires 0 <= importId < |imports| && citizenId in Ids(imports[importId].citizens)
    ensures var cs := imports[importId].citizens;
      var diff := RelativesDifference(Elems(cs[FindCitizen(cs, citizenId).value].relatives), newRelatives);
      ApplyAll(imports, DbRequests(diff.0, diff.1, importId, citizenId))
        == WithCitizens(imports, importId, Relinked(cs, citizenId, newRelatives))
  {
    var cs := imports[importId].citizens;
    var diff := RelativesDifference(Elems(cs[FindCitizen(cs, citizenId).value].relatives), newRelatives);
    ApplyPushPull(imports, importId, citizenId, diff.0, diff.1);
  }

  /** The push request of a non-empty diff whose targets exist modifies the import. */
  lemma PushModifies(imports: seq<Import>, importId: int, citizenId: int, targets: set<int>)
    requires forall i :: 0 <= i < |imports| ==> imports[i].importId == i
    requires 0 <= importId < |imports|
    requires targets != {} && targets <= Ids(imports[importId].citizens)
    ensures var q := UpdateMany(importId, Push, citizenId, targets);
      ModifiedCount(imports, ApplyRequest(imports, q)) == 1
  {
    var cs := imports[importId].citizens;
    var pushed := Relink(cs, Push, citizenId, targets);
    var t :| t in targets;
    var i := FindCitizen(cs, t).value;
    assert |pushed[i].relatives| == |cs[i].relatives| + 1;
    ApplyRequestByPosition(imports, UpdateMany(importId, Push, citizenId, targets));
    ModifiedOne(imports, importId, imports[importId].(citizens := pushed));
  }

  /** A pull request modifies the import when some target lists the citizen. */
  lemma PullModifies(imports: seq<Import>, importId: int, citizenId: int, targets: set<int>, i: int)
    requires forall i :: 0 <= i < |imports| ==> imports[i].importId == i
    requires 0 <= importId < |imports|
    requires 0 <= i < |imports[importId].citizens|
    requires imports[importId].citizens[i].citizenId in targets
    requires citizenId in imports[importId].citizens[i].relatives
    ensures var q := UpdateMany(importId, Pull, citizenId, targets);
      ModifiedCount(imports, ApplyRequest(imports, q)) == 1
  {
    var cs := imports[importId].citizens;
    var pulled := Relink(cs, Pull, citizenId, targets);
    assert |pulled[i].relatives| < |cs[i].relatives|;
    ApplyRequestByPosition(imports, UpdateMany(importId, Pull, citizenId, targets));
    ModifiedOne(imports, importId, imports[importId].(citizens := pulled));
  }

  /** A pulled id is an old relative, so on a consistent import that relative lists the citizen back. */
  lemma PullTarget(cs: seq<Citizen>, citizenId: int, pulled: set<int>) returns (i: int)
    requires Consistent(cs) && citizenId in Ids(cs)
    requires pulled != {} && pulled <= Elems(cs[FindCitizen(cs, citizenId).value].relatives)
    ensures 0 <= i < |cs| && cs[i].citizenId in pulled && citizenId in cs[i].relatives
  {
    var c := FindCitizen(cs, citizenId).value;
    var t :| t in pulled;
    assert t in cs[c].relatives;
    i := FindCitizen(cs, t).value;
  }

  /** A push onto existing targets followed by a pull that reaches a relative modifies the import twice. */
  lemma PushPullModifies(imports: seq<Import>, importId: int, citizenId: int, toPush: set<int>, toPull: set<int>, i: int)
    requires forall i :: 0 <= i < |imports| ==> imports[i].importId == i
    requires 0 <= importId < |imports|
    requires toPush != {} && toPush <= Ids(imports[importId].citizens) && toPush !! toPull
    requires 0 <= i < |imports[importId].citizens|
    requires imports[importId].citizens[i].citizenId in toPull
    requires citizenId in imports[importId].citizens[i].relatives
    ensures BulkModified(imports, DbRequests(toPush, toPull, importId, citizenId)) == 2
  {
    var cs := imports[importId].citizens;
    var push := UpdateMany(importId, Push, citizenId, toPush);
    var pull := UpdateMany(importId, Pull, citizenId, toPull);
    assert DbRequests(toPush, toPull, importId, citizenId) == [push, pull];
    BulkTwo(imports, push, pull);
    PushModifies(imports, importId, citizenId, toPush);
    var pushed := Relink(cs, Push, citizenId, toPush);
    ApplyRequestByPosition(imports, push);
    assert pushed[i] == cs[i];
    PullModifies(WithCitizens(imports, importId, pushed), importId, citizenId, toPull, i);
  }

  /**
   * On a consistent import whose push targets all exist, each request of the diff modifies the
   * import, so the bulk write never fails its count check.
   */
  lemma CountMatches(imports: seq<Import>, importId: int, citizenId: int, newRelatives: seq<int>)
    requires forall i :: 0 <= i < |imports| ==> imports[i].importId == i
    requires 0 <= importId < |imports|
    requires Consistent(imports[importId].citizens) && citizenId in Ids(imports[importId].citizens)
    requires var cs := imports[importId].citizens;
      RelativesDifference(Elems(cs[FindCitizen(cs, citizenId).value].relatives), newRelatives).0 <= Ids(cs)
    ensures var cs := imports[importId].citizens;
      var diff := RelativesDifference(Elems(cs[FindCitizen(cs, citizenId).value].relatives), newRelatives);
      var requests := DbRequests(diff.0, diff.1, importId, citizenId);
      BulkModified(imports, requests) == |requests|
  {
    var cs := imports[importId].citizens;
    var c := FindCitizen(cs, citizenId).value;
    var diff := RelativesDifference(Elems(cs[c].relatives), newRelatives);
    var push := UpdateMany(importId, Push, citizenId, diff.0);
    var pull := UpdateMany(importId, Pull, citizenId, diff.1);
    var requests := DbRequests(diff.0, diff.1, importId, citizenId);
    if diff.1 != {} {
      var i := PullTarget(cs, citizenId, diff.1);
      if diff.0 != {} {
        PushPullModifies(imports, importId, citizenId, diff.0, diff.1, i);
      } else {
        assert requests == [pull];
        BulkOne(imports, pull);
        PullModifies(imports, importId, citizenId, diff.1, i);
      }
    } else if diff.0 != {} {
      assert requests == [push];
      BulkOne(imports, push);
      PushModifies(imports, importId, citizenId, diff.0);
    } else {
      assert requests == [];
    }
  }

  /**
   * After both requests, a citizen other than the patched one lists the patched citizen exactly
   * when the new list names it, and otherwise keeps its relatives.
   */
  lemma RelinkedOther(cs: seq<Citizen>, citizenId: int, newRelatives: seq<int>, i: int)
    requires Consistent(cs) && citizenId in Ids(cs) && citizenId !in newRelatives
    requires 0 <= i < |cs| && cs[i].citizenId != citizenId
    ensures var rels := Relinked(cs, citizenId, newRelatives)[i].relatives;
      && (citizenId in rels <==> cs[i].citizenId in newRelatives)
      && (forall x :: x != citizenId ==> (x in rels <==> x in cs[i].relatives))
      && NoDuplicates(rels)
      && cs[i].citizenId !in rels
  {
    var c := FindCitizen(cs, citizenId).value;
    var diff := RelativesDifference(Elems(cs[c].relatives), newRelatives);
    var id := cs[i].citizenId;
    var rels := Relinked(cs, citizenId, newRelatives)[i].relatives;
    assert citizenId in cs[i].relatives <==> id in cs[c].relatives;
    if id in diff.0 {
      assert rels == cs[i].relatives + [citizenId];
      assert citizenId !in cs[i].relatives;
      assert forall x :: x in rels <==> x in cs[i].relatives || x == citizenId;
    } else if id in diff.1 {
      assert rels == RemoveAll(cs[i].relatives, citizenId);
    } else {
      assert rels == cs[i].relatives;
    }
  }

  /**
   * An import is consistent after a relink when the patched citizen `c` has a clean new list and
   * every other citizen lists `c` exactly when the new list names it, with its other relatives
   * kept.
   */
  lemma ConsistentAfterRelink(cs: seq<Citizen>, after: seq<Citizen>, c: int, newRelatives: seq<int>)
    requires Consistent(cs) && SameIds(after, cs) && 0 <= c < |cs|
    requires after[c].relatives == newRelatives && NoDuplicates(newRelatives)
    requires cs[c].citizenId !in newRelatives
    requires forall x :: x in newRelatives ==> x in Ids(cs)
    requires forall i :: 0 <= i < |cs| && i != c ==>
      && (cs[c].citizenId in after[i].relatives <==> cs[i].citizenId in newRelatives)
      && (forall x :: x != cs[c].citizenId ==> (x in after[i].relatives <==> x in cs[i].relatives))
      && NoDuplicates(after[i].relatives)
      && cs[i].citizenId !in after[i].relatives
    ensures Consistent(after)
  {
    SameIdSets(after, cs);
    assert cs[c] in cs;
    forall i, x | 0 <= i < |after| && x in after[i].relatives ensures x in Ids(after) {
      if i != c && x != cs[c].citizenId {
        assert x in cs[i].relatives;
      }
    }
    forall i, j | 0 <= i < |after| && 0 <= j < |after| && after[j].citizenId in after[i].relatives
      ensures after[i].citizenId in after[j].relatives
    {
      if i != c && j != c {
        assert cs[i].citizenId in cs[j].relatives;
      }
    }
  }

  /**
   * The central property of the patch protocol: on a consistent import, pushing and pulling the
   * patched citizen's id and then giving the citizen its new list, which has no repeats, does not
   * name the citizen itself and whose new entries exist, yields a consistent import again; in
   * particular the relation stays symmetric.
   */
  lemma RelinkedKeepsConsistent(cs: seq<Citizen>, citizenId: int, newRelatives: seq<int>)
    requires Consistent(cs) && citizenId in Ids(cs)
    requires NoDuplicates(newRelatives) && citizenId !in newRelatives
    requires RelativesDifference(Elems(cs[FindCitizen(cs, citizenId).value].relatives), newRelatives).0 <= Ids(cs)
    ensures var c := FindCitizen(cs, citizenId).value;
      var r := Relinked(cs, citizenId, newRelatives);
      Consistent(r[c := r[c].(relatives := newRelatives)])
  {
    var c := FindCitizen(cs, citizenId).value;
    var diff := RelativesDifference(Elems(cs[c].relatives), newRelatives);
    var r := Relinked(cs, citizenId, newRelatives);
    var after := r[c := r[c].(relatives := newRelatives)];
    forall x | x in newRelatives ensures x in Ids(cs) {
      if x !in cs[c].relatives {
        assert x in diff.0;
      }
    }
    forall i | 0 <= i < |cs| && i != c
      ensures && (citizenId in after[i].relatives <==> cs[i].citizenId in newRelatives)
              && (forall x :: x != citizenId ==> (x in after[i].relatives <==> x in cs[i].relatives))
              && NoDuplicates(after[i].relatives)
              && cs[i].citizenId !in after[i].relatives
    {
      RelinkedOther(cs, citizenId, newRelatives, i);
    }
    ConsistentAfterRelink(cs, after, c, newRelatives);
  }

  /** In a store whose import ids equal positions, `_get_relatives` reads the import at `importId`. */
  lemma StoredRelativesByPosition(imports: seq<Import>, importId: int, citizenId: int)
    requires forall i :: 0 <= i < |imports| ==> imports[i].importId == i
    ensures StoredRelatives(imports, importId, citizenId) ==
      if 0 <= importId < |imports| && citizenId in Ids(imports[importId].citizens)
      then Some(Elems(imports[importId].citizens[FindCitizen(imports[importId].citizens, citizenId).value].relatives))
      else None
  {
    FindDocumentByPosition(imports, importId, {citizenId});
  }

  /**
   * `update_relatives` on a store whose import ids equal positions: it fails when the citizen is
   * missing or a citizen to push onto is missing; otherwise it relinks the import's citizens and
   * fails only when the modified count differs.
   */
  lemma UpdateRelativesByPosition(imports: seq<Import>, citizenId: int, importId: int, patch: CitizenPatch)
    requires forall i :: 0 <= i < |imports| ==> imports[i].importId == i
    ensures patch.relatives.None? ==> UpdateRelativesEffect(imports, citizenId, importId, patch) == (Pass, imports)
    ensures patch.relatives.Some? && !(0 <= importId < |imports| && citizenId in Ids(imports[importId].citizens)) ==>
      UpdateRelativesEffect(imports, citizenId, importId, patch) == (Fail(CitizenNotFound), imports)
    ensures patch.relatives.Some? && 0 <= importId < |imports| && citizenId in Ids(imports[importId].citizens) ==>
      var cs := imports[importId].citizens;
      var diff := RelativesDifference(Elems(cs[FindCitizen(cs, citizenId).value].relatives), patch.relatives.value);
      var requests := DbRequests(diff.0, diff.1, importId, citizenId);
      UpdateRelativesEffect(imports, citizenId, importId, patch) ==
        if !(diff.0 <= Ids(cs)) then (Fail(RelativesNotFound), imports)
        else if BulkModified(imports, requests) != |requests| then
          (Fail(ModifiedCountMismatch), WithCitizens(imports, importId, Relinked(cs, citizenId, patch.relatives.value)))
        else (Pass, WithCitizens(imports, importId, Relinked(cs, citizenId, patch.relatives.value)))
  {
    StoredRelativesByPosition(imports, importId, citizenId);
    if patch.relatives.Some? && 0 <= importId < |imports| && citizenId in Ids(imports[importId].citizens) {
      var cs := imports[importId].citizens;
      var diff := RelativesDifference(Elems(cs[FindCitizen(cs, citizenId).value].relatives), patch.relatives.value);
      FindDocumentByPosition(imports, importId, diff.0);
      ApplyDbRequests(imports, importId, citizenId, patch.relatives.value);
    }
  }
}
