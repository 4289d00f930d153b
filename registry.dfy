/**
 * The registry's records: citizens nested in imports, the relation invariants an import must keep,
 * and an in-memory stand-in for the `imports` collection of the document store.
 */
module Registry {
  import opened Wrappers
  import opened DateCodec

  datatype Gender = Male | Female

  /**
   * A `birth_date` value: the wire text as it arrives, or the parsed date that replaces it in place
   * once `strptime` has run.
   */
  datatype BirthDate = Text(text: string) | Parsed(date: Date)

  /** One citizen record; the JSON schema holds by construction of the type. */
  datatype Citizen = Citizen(
    citizenId: int,
    town: string,
    street: string,
    building: string,
    apartment: int,
    name: string,
    birthDate: BirthDate,
    gender: Gender,
    relatives: seq<int>)

  /** One stored import document. */
  datatype Import = Import(importId: int, citizens: seq<Citizen>)

  /** A patch: one optional slot per mutable field, present when the request names the field. */
  datatype CitizenPatch = CitizenPatch(
    town: Option<string>,
    street: Option<string>,
    building: Option<string>,
    apartment: Option<int>,
    name: Option<string>,
    birthDate: Option<BirthDate>,
    gender: Option<Gender>,
    relatives: Option<seq<int>>)

  /** The exceptions the handlers raise. */
  datatype Failure =
    | InvalidOperation(operation: string)  // ValueError: operation other than $push/$pull
    | BadDateFormat                        // ValueError from strptime
    | CitizenNotFound                      // PyMongoError: import or citizen with specified id not found
    | RelativesNotFound                    // PyMongoError: citizens with specified id not found
    | ModifiedCountMismatch                // PyMongoError: bulk write modified fewer documents than requested
    | NotAcknowledged                      // PyMongoError: insert was not acknowledged
    | ImportNotFound                       // PyMongoError: import with specified id not found

  function Elems(s: seq<int>): set<int> {
    set x | x in s
  }

  predicate NoDuplicates(s: seq<int>) {
    forall i, j :: 0 <= i < j < |s| ==> s[i] != s[j]
  }

  function Ids(cs: seq<Citizen>): set<int> {
    set c | c in cs :: c.citizenId
  }

  predicate UniqueIds(cs: seq<Citizen>) {
    forall i, j :: 0 <= i < j < |cs| ==> cs[i].citizenId != cs[j].citizenId
  }

  /** A list has no repeated element exactly when its set is as large as the list. */
  lemma {:induction false} DistinctByCardinality(s: seq<int>)
    ensures |Elems(s)| <= |s|
    ensures |Elems(s)| == |s| <==> NoDuplicates(s)
  {
    if s != [] {
      var init, last := s[..|s| - 1], s[|s| - 1];
      DistinctByCardinality(init);
      ElemsSnoc(init, last);
      assert s == init + [last];
      NoDuplicatesSnoc(init, last);
    }
  }

  /** The set of a list with one more element. */
  lemma ElemsSnoc(init: seq<int>, last: int)
    ensures Elems(init + [last]) == Elems(init) + {last}
    ensures last in init ==> Elems(init + [last]) == Elems(init)
    ensures last !in init ==> |Elems(init + [last])| == |Elems(init)| + 1
  {
    assert Elems(init + [last]) == Elems(init) + {last};
  }

  /** A list with one more element has no repeats exactly when the shorter one has none and lacks it. */
  lemma NoDuplicatesSnoc(init: seq<int>, last: int)
    ensures NoDuplicates(init + [last]) <==> NoDuplicates(init) && last !in init
  {
    var s := init + [last];
    if last in init {
      var k :| 0 <= k < |init| && init[k] == last;
      assert s[k] == s[|s| - 1];
    } else if NoDuplicates(init) {
      forall i, j | 0 <= i < j < |s| ensures s[i] != s[j] {
        if j == |s| - 1 { assert s[i] in init; } else { assert s[i] == init[i] && s[j] == init[j]; }
      }
    } else {
      var i, j :| 0 <= i < j < |init| && init[i] == init[j];
      assert s[i] == s[j];
    }
  }

  function IdList(cs: seq<Citizen>): (ids: seq<int>)
    ensures |ids| == |cs| && forall i :: 0 <= i < |cs| ==> ids[i] == cs[i].citizenId
  {
    seq(|cs|, i requires 0 <= i < |cs| => cs[i].citizenId)
  }

  /** The ids are unique exactly when the set of ids is as large as the batch. */
  lemma UniqueByCardinality(cs: seq<Citizen>)
    ensures |Ids(cs)| == |cs| <==> UniqueIds(cs)
  {
    var ids := IdList(cs);
    assert Ids(cs) == Elems(ids) by {
      forall x ensures x in Ids(cs) <==> x in Elems(ids) {
        if x in Ids(cs) {
          var c :| c in cs && c.citizenId == x;
          var i :| 0 <= i < |cs| && cs[i] == c;
          assert ids[i] == x;
        }
      }
    }
    DistinctByCardinality(ids);
    assert UniqueIds(cs) <==> NoDuplicates(ids);
  }

  /** Two batches with the same ids at the same positions. */
  predicate SameIds(a: seq<Citizen>, b: seq<Citizen>) {
    |a| == |b| && forall i :: 0 <= i < |a| ==> a[i].citizenId == b[i].citizenId
  }

  /** Batches with the same ids position by position have the same id set. */
  lemma SameIdSets(a: seq<Citizen>, b: seq<Citizen>)
    requires SameIds(a, b)
    ensures Ids(a) == Ids(b)
  {
    forall x | x in Ids(a) ensures x in Ids(b) {
      var c :| c in a && c.citizenId == x;
      var i :| 0 <= i < |a| && a[i] == c;
      assert b[i] in b;
    }
    forall x | x in Ids(b) ensures x in Ids(a) {
      var c :| c in b && c.citizenId == x;
      var i :| 0 <= i < |b| && b[i] == c;
      assert a[i] in a;
    }
  }

  /** The position of the first citizen with the given id (the `$elemMatch` projection). */
  function FindCitizen(cs: seq<Citizen>, citizenId: int): (r: Option<nat>)
    ensures r.Some? ==> r.value < |cs| && cs[r.value].citizenId == citizenId
    ensures r.Some? ==> forall j :: 0 <= j < r.value ==> cs[j].citizenId != citizenId
    ensures r.None? <==> citizenId !in Ids(cs)
  {
    if cs == [] then None
    else if cs[0].citizenId == citizenId then Some(0)
    else
      assert Ids(cs) == {cs[0].citizenId} + Ids(cs[1..]) by {
        assert forall c :: c in cs <==> c == cs[0] || c in cs[1..];
      }
      match FindCitizen(cs[1..], citizenId)
      case None => None
      case Some(k) => Some(k + 1)
  }

  /**
   * The position of the first import with the given id whose citizens include every id in `ids`:
   * `find_one` on `{'import_id': ..., 'citizens.citizen_id': ...}`; with `ids` empty, the filter
   * on `import_id` alone.
   */
  function FindDocument(imports: seq<Import>, importId: int, ids: set<int>): (r: Option<nat>)
    ensures r.Some? ==>
      r.value < |imports| && imports[r.value].importId == importId && ids <= Ids(imports[r.value].citizens)
    ensures r.Some? ==>
      forall j :: 0 <= j < r.value ==> !(imports[j].importId == importId && ids <= Ids(imports[j].citizens))
    ensures r.None? <==>
      forall j :: 0 <= j < |imports| ==> !(imports[j].importId == importId && ids <= Ids(imports[j].citizens))
  {
    if imports == [] then None
    else if imports[0].importId == importId && ids <= Ids(imports[0].citizens) then Some(0)
    else
      match FindDocument(imports[1..], importId, ids)
      case None => None
      case Some(k) => Some(k + 1)
  }

  /** `shared.get_citizens`: the citizens of the first import with that id. */
  function GetCitizens(imports: seq<Import>, importId: int): (r: Result<seq<Citizen>, Failure>)
    ensures r.Failure? <==> forall j :: 0 <= j < |imports| ==> imports[j].importId != importId
    ensures r.Failure? ==> r.error == ImportNotFound
    ensures r.Success? ==>
      exists j :: 0 <= j < |imports| && imports[j].importId == importId && r.value == imports[j].citizens
  {
    match FindDocument(imports, importId, {})
    case None => Failure(ImportNotFound)
    case Some(k) => Success(imports[k].citizens)
  }

  /** The kinship relation an import describes: `a` lists `b` as a relative. */
  ghost predicate Related(cs: seq<Citizen>, a: int, b: int) {
    exists i :: 0 <= i < |cs| && cs[i].citizenId == a && b in cs[i].relatives
  }

  /**
   * The invariants every stored import keeps: unique citizen ids, no repeated relative, no
   * citizen related to itself, every relative present, and the relation symmetric.
   */
  predicate Consistent(cs: seq<Citizen>) {
    && UniqueIds(cs)
    && (forall i :: 0 <= i < |cs| ==> NoDuplicates(cs[i].relatives))
    && (forall i :: 0 <= i < |cs| ==> cs[i].citizenId !in cs[i].relatives)
    && (forall i, r :: 0 <= i < |cs| && r in cs[i].relatives ==> r in Ids(cs))
    && (forall i, j :: 0 <= i < |cs| && 0 <= j < |cs| && cs[j].citizenId in cs[i].relatives ==>
          cs[i].citizenId in cs[j].relatives)
  }

  /** Consistency looks only at the ids and the relatives lists. */
  lemma ConsistentByRelation(a: seq<Citizen>, b: seq<Citizen>)
    requires SameIds(a, b) && forall i :: 0 <= i < |a| ==> a[i].relatives == b[i].relatives
    ensures Consistent(a) <==> Consistent(b)
  {
    SameIdSets(a, b);
  }

  /** A consistent import describes a symmetric, irreflexive relation over its own citizens. */
  lemma ConsistentRelation(cs: seq<Citizen>)
    requires Consistent(cs)
    ensures forall a, b :: Related(cs, a, b) ==> Related(cs, b, a)
    ensures forall a :: !Related(cs, a, a)
    ensures forall a, b :: Related(cs, a, b) ==> a in Ids(cs) && b in Ids(cs)
  {
    forall a, b | Related(cs, a, b) ensures Related(cs, b, a) && a in Ids(cs) && b in Ids(cs) {
      var i :| 0 <= i < |cs| && cs[i].citizenId == a && b in cs[i].relatives;
      var j := FindCitizen(cs, b).value;
      assert cs[j].citizenId in cs[i].relatives;
      assert a in cs[j].relatives;
    }
  }

  /** The stored form of a birth date: parsed and within the calendar. */
  predicate StoredDate(b: BirthDate) {
    b.Parsed? && ValidDate(b.date)
  }

  predicate StoredDates(cs: seq<Citizen>) {
    forall i :: 0 <= i < |cs| ==> StoredDate(cs[i].birthDate)
  }

  /**
   * The in-place conversion of one citizen's `birth_date` from text to a date; a citizen whose
   * text does not parse is left as it is (the conversion raises there).
   */
  function ConvertBirthDate(c: Citizen): (r: Citizen)
    ensures r.(birthDate := c.birthDate) == c
    ensures c.birthDate.Text? && Parse(c.birthDate.text).Some? ==>
              r.birthDate == Parsed(Parse(c.birthDate.text).value) && StoredDate(r.birthDate)
  {
    if c.birthDate.Text? && Parse(c.birthDate.text).Some?
    then c.(birthDate := Parsed(Parse(c.birthDate.text).value))
    else c
  }

  /** The citizens after the loop has converted the first `k` of them. */
  function ConvertPrefix(cs: seq<Citizen>, k: nat): (r: seq<Citizen>)
    requires k <= |cs|
    ensures |r| == |cs| && r[k..] == cs[k..]
    ensures forall i :: 0 <= i < k ==> r[i] == ConvertBirthDate(cs[i])
  {
    seq(|cs|, i requires 0 <= i < |cs| => if i < k then ConvertBirthDate(cs[i]) else cs[i])
  }

  /** Whether every citizen's `birth_date` text parses. */
  predicate AllDatesParse(cs: seq<Citizen>) {
    forall i :: 0 <= i < |cs| ==> cs[i].birthDate.Text? && Parse(cs[i].birthDate.text).Some?
  }

  /** The first citizen whose `birth_date` does not parse, if any. */
  function FirstBadDate(cs: seq<Citizen>): (r: Option<nat>)
    requires forall i :: 0 <= i < |cs| ==> cs[i].birthDate.Text?
    ensures r.None? <==> AllDatesParse(cs)
    ensures r.Some? ==> r.value < |cs| && Parse(cs[r.value].birthDate.text).None? && AllDatesParse(cs[..r.value])
  {
    if cs == [] then None
    else
      AllDatesParseCons(cs);
      if Parse(cs[0].birthDate.text).None? then Some(0)
      else
        match FirstBadDate(cs[1..])
        case None => None
        case Some(k) =>
          AllDatesParseCons(cs[..k + 1]);
          assert cs[..k + 1][1..] == cs[1..][..k];
          Some(k + 1)
  }

  /** Every date of a non-empty list parses exactly when the first one and the rest do. */
  lemma AllDatesParseCons(cs: seq<Citizen>)
    requires cs != []
    ensures AllDatesParse(cs)
        <==> cs[0].birthDate.Text? && Parse(cs[0].birthDate.text).Some? && AllDatesParse(cs[1..])
  {
    if cs[0].birthDate.Text? && Parse(cs[0].birthDate.text).Some? && AllDatesParse(cs[1..]) {
      forall i | 0 <= i < |cs| ensures cs[i].birthDate.Text? && Parse(cs[i].birthDate.text).Some? {
        if i > 0 {
          assert cs[i] == cs[1..][i - 1];
        }
      }
    }
    if AllDatesParse(cs) {
      forall i | 0 <= i < |cs| - 1 ensures cs[1..][i].birthDate.Text? && Parse(cs[1..][i].birthDate.text).Some? {
        assert cs[1..][i] == cs[i + 1];
      }
    }
  }

  /** Import ids equal positions and every stored birth date is parsed. */
  predicate ValidImports(imports: seq<Import>) {
    forall i :: 0 <= i < |imports| ==> imports[i].importId == i && StoredDates(imports[i].citizens)
  }

  /**
   * The `imports` collection. Import ids are assigned as the count of stored imports and imports
   * are never deleted, so the import at position `i` has id `i`; every stored birth date is parsed.
   */
  class Store {
    var imports: seq<Import>

    ghost predicate Valid()
      reads this
    {
      ValidImports(imports)
    }

    constructor ()
      ensures imports == [] && Valid()
    {
      imports := [];
    }
  }

  /** When import ids equal positions, the document found is the import at position `importId`. */
  lemma FindDocumentByPosition(imports: seq<Import>, importId: int, ids: set<int>)
    requires forall i :: 0 <= i < |imports| ==> imports[i].importId == i
    ensures FindDocument(imports, importId, ids) ==
      if 0 <= importId < |imports| && ids <= Ids(imports[importId].citizens) then Some(importId as nat) else None
  {
    if 0 <= importId < |imports| {
      assert imports[importId].importId == importId;
    }
  }
}
