/**
 * `post_import`: the birth dates of the payload's citizens are parsed in place, the import gets the
 * number of stored imports as its id, and the document is appended to the `imports` collection.
 */
module PostImport {
  import opened Wrappers
  import opened DateCodec
  import opened Registry

  /** A citizen list straight from the JSON payload: every `birth_date` is still text. */
  predicate TextDates(cs: seq<Citizen>) {
    forall i :: 0 <= i < |cs| ==> cs[i].birthDate.Text?
  }

  /** How far `_parse_birth_date` gets: the whole list, or up to the first date that does not parse. */
  function ParsedUpTo(cs: seq<Citizen>): (k: nat)
    requires TextDates(cs)
    ensures k <= |cs|
    ensures k == |cs| <==> AllDatesParse(cs)
  {
    match FirstBadDate(cs)
    case None => |cs|
    case Some(k) => k
  }

  /** The loop stops at `i` exactly when every date before `i` parses and the one at `i` does not. */
  lemma ParsedUpToAt(cs: seq<Citizen>, i: nat)
    requires TextDates(cs) && i < |cs|
    requires AllDatesParse(cs[..i]) && Parse(cs[i].birthDate.text).None?
    ensures ParsedUpTo(cs) == i
  {
    assert !AllDatesParse(cs);
  }

  /**
   * `_parse_birth_date`: rewrites each citizen's `birth_date` in list order and raises at the first
   * one that does not parse, the citizens before it already converted.
   */
  method ParseBirthDates(citizens: array<Citizen>) returns (r: Outcome<Failure>)
    requires TextDates(citizens[..])
    modifies citizens
    ensures r.Pass? <==> AllDatesParse(old(citizens[..]))
    ensures r.Fail? ==> r.error == BadDateFormat
    ensures citizens[..] == ConvertPrefix(old(citizens[..]), ParsedUpTo(old(citizens[..])))
  {
    ghost var cs := citizens[..];
    for i := 0 to citizens.Length
      invariant citizens[..] == ConvertPrefix(cs, i)
      invariant AllDatesParse(cs[..i])
    {
      var date := Parse(citizens[i].birthDate.text);
      if date.None? {
        ParsedUpToAt(cs, i);
        return Fail(BadDateFormat);
      }
      citizens[i] := citizens[i].(birthDate := Parsed(date.value));
      assert citizens[..] == ConvertPrefix(cs, i + 1);
      assert cs[..i + 1] == cs[..i] + [cs[i]];
    }
    assert cs[..citizens.Length] == cs;
    return Pass;
  }

  /**
   * A fully parsed payload keeps the ids and relatives of the batch, so it is consistent exactly
   * when the batch was, and every birth date in it is stored as a date.
   */
  lemma ParsedPayload(cs: seq<Citizen>)
    requires AllDatesParse(cs)
    ensures StoredDates(ConvertPrefix(cs, |cs|))
    ensures SameIds(ConvertPrefix(cs, |cs|), cs)
    ensures Consistent(ConvertPrefix(cs, |cs|)) <==> Consistent(cs)
  {
    var parsed := ConvertPrefix(cs, |cs|);
    forall i | 0 <= i < |cs| ensures parsed[i].relatives == cs[i].relatives && parsed[i].citizenId == cs[i].citizenId {
      assert parsed[i].(birthDate := cs[i].birthDate) == cs[i];
    }
    ConsistentByRelation(parsed, cs);
  }

  /** `_add_import_id`: the number of imports stored, an id no stored import carries. */
  method AddImportId(store: Store) returns (importId: nat)
    requires store.Valid()
    ensures importId == |store.imports|
    ensures forall i :: 0 <= i < |store.imports| ==> store.imports[i].importId != importId
  {
    importId := |store.imports|;
  }

  /**
   * `_write_to_db`: `insert_one` of the document. An acknowledged write appends it and answers its
   * id; an unacknowledged one raises and stores nothing.
   */
  method WriteToDb(store: Store, doc: Import, acknowledged: bool) returns (r: Result<(int, int), Failure>)
    modifies store
    ensures acknowledged ==> r == Success((doc.importId, 201)) && store.imports == old(store.imports) + [doc]
    ensures !acknowledged ==> r == Failure(NotAcknowledged) && store.imports == old(store.imports)
  {
    if !acknowledged {
      return Failure(NotAcknowledged);
    }
    store.imports := store.imports + [doc];
    return Success((doc.importId, 201));
  }

  /** The response of `post_import`: the new import id with status 201, or the error raised. */
  function PostImportResult(imports: seq<Import>, cs: seq<Citizen>, acknowledged: bool)
    : (r: Result<(int, int), Failure>)
    requires TextDates(cs)
    ensures r.Success? <==> AllDatesParse(cs) && acknowledged
    ensures r.Success? ==> r.value == (|imports|, 201)
    ensures r == Failure(BadDateFormat) <==> !AllDatesParse(cs)
    ensures r.Failure? ==> r.error == BadDateFormat || r.error == NotAcknowledged
  {
    if ParsedUpTo(cs) < |cs| then Failure(BadDateFormat)
    else if !acknowledged then Failure(NotAcknowledged)
    else Success((|imports|, 201))
  }

  /**
   * The `imports` collection after `post_import`: the parsed batch appended under the next id on
   * success, unchanged on failure. Stored imports are never altered, and the collection stays valid.
   */
  function Posted(imports: seq<Import>, cs: seq<Citizen>, acknowledged: bool): (r: seq<Import>)
    requires TextDates(cs)
    ensures |imports| <= |r| <= |imports| + 1 && r[..|imports|] == imports
    ensures |r| == |imports| + 1 <==> PostImportResult(imports, cs, acknowledged).Success?
    ensures |r| == |imports| + 1 ==> r[|imports|] == Import(|imports|, ConvertPrefix(cs, |cs|))
    ensures ValidImports(imports) ==> ValidImports(r)
  {
    if PostImportResult(imports, cs, acknowledged).Success? then
      var doc := Import(|imports|, ConvertPrefix(cs, |cs|));
      ParsedPayload(cs);
      AppendValid(imports, doc);
      assert (imports + [doc])[..|imports|] == imports;
      imports + [doc]
    else
      assert imports[..|imports|] == imports;
      imports
  }

  /** Appending a document with the next id and parsed dates keeps the collection valid. */
  lemma AppendValid(imports: seq<Import>, doc: Import)
    requires doc.importId == |imports| && StoredDates(doc.citizens)
    ensures ValidImports(imports) ==> ValidImports(imports + [doc])
  {
    if ValidImports(imports) {
      forall i | 0 <= i < |imports| + 1
        ensures (imports + [doc])[i].importId == i && StoredDates((imports + [doc])[i].citizens)
      {
        if i < |imports| {
          assert (imports + [doc])[i] == imports[i];
        }
      }
    }
  }

  /**
   * `post_import` on a valid store: parse the dates, take the next id, insert. The response and the
   * new collection are those of `PostImportResult` and `Posted`; the payload keeps the dates it got
   * through.
   */
  method PostImport(store: Store, citizens: array<Citizen>, acknowledged: bool)
    returns (r: Result<(int, int), Failure>)
    requires store.Valid()
    requires TextDates(citizens[..])
    modifies store, citizens
    ensures store.Valid()
    ensures r == PostImportResult(old(store.imports), old(citizens[..]), acknowledged)
    ensures store.imports == Posted(old(store.imports), old(citizens[..]), acknowledged)
    ensures citizens[..] == ConvertPrefix(old(citizens[..]), ParsedUpTo(old(citizens[..])))
  {
    var parsed := ParseBirthDates(citizens);
    if parsed.Fail? {
      return Failure(parsed.error);
    }
    var importId := AddImportId(store);
    r := WriteToDb(store, Import(importId, citizens[..]), acknowledged);
  }

  /** The collection after posting each batch in turn, every write acknowledged. */
  function PostAll(imports: seq<Import>, batches: seq<seq<Citizen>>): seq<Import>
    requires forall b :: b in batches ==> TextDates(b)
    decreases |batches|
  {
    if batches == [] then imports
    else PostAll(Posted(imports, batches[0], true), batches[1..])
  }

  /** Every batch is a payload straight from JSON whose dates all parse. */
  predicate AllParse(batches: seq<seq<Citizen>>) {
    forall b :: b in batches ==> TextDates(b) && AllDatesParse(b)
  }

  lemma AllParseTail(batches: seq<seq<Citizen>>)
    requires batches != [] && AllParse(batches)
    ensures TextDates(batches[0]) && AllDatesParse(batches[0]) && AllParse(batches[1..])
  {
    assert batches[0] in batches;
    forall b | b in batches[1..] ensures TextDates(b) && AllDatesParse(b) {
      assert b in batches;
    }
  }

  /** Posting a batch whose dates all parse appends its parsed citizens under the next id. */
  lemma PostAllStep(imports: seq<Import>, batches: seq<seq<Citizen>>)
    requires batches != [] && AllParse(batches)
    ensures AllParse(batches[1..])
    ensures PostAll(imports, batches)
         == PostAll(imports + [Import(|imports|, ConvertPrefix(batches[0], |batches[0]|))], batches[1..])
  {
    AllParseTail(batches);
    var next := Posted(imports, batches[0], true);
    assert next == imports + [Import(|imports|, ConvertPrefix(batches[0], |batches[0]|))] by {
      assert |next| == |imports| + 1;
      assert next[..|imports|] == imports;
    }
  }

  /** The imports stored for `batches` when they are numbered on from `start`. */
  function Numbered(start: nat, batches: seq<seq<Citizen>>): (r: seq<Import>)
    ensures |r| == |batches|
    ensures forall j :: 0 <= j < |batches| ==> r[j] == Import(start + j, ConvertPrefix(batches[j], |batches[j]|))
  {
    seq(|batches|, j requires 0 <= j < |batches| => Import(start + j, ConvertPrefix(batches[j], |batches[j]|)))
  }

  /** Numbering the first batch, then the rest from the next id, numbers them all. */
  lemma NumberedStep(imports: seq<Import>, batches: seq<seq<Citizen>>)
    requires batches != []
    ensures imports + Numbered(|imports|, batches)
         == (imports + [Import(|imports|, ConvertPrefix(batches[0], |batches[0]|))]) + Numbered(|imports| + 1, batches[1..])
  {
    var lhs := imports + Numbered(|imports|, batches);
    var rhs := (imports + [Import(|imports|, ConvertPrefix(batches[0], |batches[0]|))]) + Numbered(|imports| + 1, batches[1..]);
    assert |lhs| == |rhs|;
    forall i | 0 <= i < |lhs| ensures lhs[i] == rhs[i] {
      if i > |imports| {
        assert batches[1..][i - |imports| - 1] == batches[i - |imports|];
      }
    }
  }

  /** Posting batches whose dates all parse appends them, numbered on from the size of the collection. */
  lemma {:induction false} PostAllNumbers(imports: seq<Import>, batches: seq<seq<Citizen>>)
    requires AllParse(batches)
    ensures PostAll(imports, batches) == imports + Numbered(|imports|, batches)
    decreases |batches|
  {
    if batches == [] {
      assert imports + Numbered(|imports|, batches) == imports;
    } else {
      PostAllStep(imports, batches);
      var next := imports + [Import(|imports|, ConvertPrefix(batches[0], |batches[0]|))];
      PostAllNumbers(next, batches[1..]);
      NumberedStep(imports, batches);
    }
  }

  /**
   * Posting batches whose dates all parse appends one import per batch, numbered on from the size
   * of the collection, in posting order.
   */
  lemma PostAllAppends(imports: seq<Import>, batches: seq<seq<Citizen>>)
    requires AllParse(batches)
    ensures |PostAll(imports, batches)| == |imports| + |batches|
    ensures PostAll(imports, batches)[..|imports|] == imports
    ensures forall j :: 0 <= j < |batches| ==>
      PostAll(imports, batches)[|imports| + j] == Import(|imports| + j, ConvertPrefix(batches[j], |batches[j]|))
  {
    PostAllNumbers(imports, batches);
  }

  /**
   * n successive posts on an empty store, with no deletion, give the imports ids 0 to n-1: pairwise
   * distinct, each equal to its position.
   */
  lemma SuccessivePostsNumberImports(batches: seq<seq<Citizen>>)
    requires AllParse(batches)
    ensures |PostAll([], batches)| == |batches|
    ensures forall j :: 0 <= j < |batches| ==> PostAll([], batches)[j].importId == j
    ensures forall i, j :: 0 <= i < j < |batches| ==> PostAll([], batches)[i].importId != PostAll([], batches)[j].importId
  {
    PostAllAppends([], batches);
    forall j | 0 <= j < |batches| ensures PostAll([], batches)[j].importId == j {
      var none: seq<Import> := [];
      assert PostAll(none, batches)[|none| + j] == Import(j, ConvertPrefix(batches[j], |batches[j]|));
    }
  }

  /** A store with one import hands out id 1 next, as the empty store hands out 0. */
  lemma AddImportIdExamples(cs: seq<Citizen>)
    requires TextDates(cs) && AllDatesParse(cs)
    ensures PostImportResult([], cs, true) == Success((0, 201))
    ensures PostImportResult(Posted([], cs, true), cs, true) == Success((1, 201))
  {
  }
}
