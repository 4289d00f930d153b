/**
 * `cache_response`: before a handler runs, the cache collection is searched for a document with the
 * request's `import_id`; a hit answers the cached fields with status 201 and the handler is not
 * used, a miss runs the handler and stores its response data under the `import_id`.
 */
module ResponseCache {
  import opened Wrappers

  /** A JSON value of a response document. */
  datatype Value = Number(n: int) | Text(s: string) | Object(fields: map<string, Value>)

  /** A JSON object: a response body, or a document of a cache collection. */
  type Document = map<string, Value>

  /** A handler's response: its JSON body and its HTTP status. */
  datatype Response = Response(json: Document, status: int)

  const ImportIdKey: string := "import_id"
  const IdKey: string := "_id"

  /** The documents of a collection; a collection never written to is empty. */
  function Docs(collections: map<string, seq<Document>>, name: string): seq<Document> {
    if name in collections then collections[name] else []
  }

  /** The query `{'import_id': import_id}`. */
  predicate Matches(doc: Document, importId: int) {
    ImportIdKey in doc && doc[ImportIdKey] == Number(importId)
  }

  /** `find_one`: the position of the first document that matches. */
  function FirstMatch(docs: seq<Document>, importId: int): (r: Option<nat>)
    ensures r.None? <==> forall k :: 0 <= k < |docs| ==> !Matches(docs[k], importId)
    ensures r.Some? ==> r.value < |docs| && Matches(docs[r.value], importId)
    ensures r.Some? ==> forall k :: 0 <= k < r.value ==> !Matches(docs[k], importId)
  {
    if docs == [] then None
    else if Matches(docs[0], importId) then Some(0)
    else match FirstMatch(docs[1..], importId)
      case None => None
      case Some(k) => Some(k + 1)
  }

  /** The projection `{'_id': 0, 'import_id': 0}`: every field but those two. */
  function Project(doc: Document): (r: Document)
    ensures r.Keys == doc.Keys - {ImportIdKey, IdKey}
    ensures forall key :: key in r ==> r[key] == doc[key]
  {
    doc - {ImportIdKey, IdKey}
  }

  /**
   * The document `_cache_data` inserts, `{'import_id': import_id, **response_data}`: every field of
   * the response, and the `import_id` unless the response carries a field of that name, which wins.
   */
  function CacheDocument(importId: int, response: Document): (r: Document)
    ensures r.Keys == response.Keys + {ImportIdKey}
    ensures forall key :: key in response ==> r[key] == response[key]
    ensures ImportIdKey !in response ==> r[ImportIdKey] == Number(importId)
  {
    map[ImportIdKey := Number(importId)] + response
  }

  /**
   * Reading back what `_cache_data` stored gives the response data: all of it when it has no
   * `import_id` or `_id` field, and the document is found under the `import_id` it was stored with
   * unless the response names another one.
   */
  lemma CacheRoundTrip(importId: int, response: Document)
    ensures Project(CacheDocument(importId, response)) == Project(response)
    ensures ImportIdKey !in response && IdKey !in response ==> Project(CacheDocument(importId, response)) == response
    ensures Matches(CacheDocument(importId, response), importId)
        <==> ImportIdKey !in response || response[ImportIdKey] == Number(importId)
  {
  }

  /** The database: cache collections by name. */
  class Database {
    var collections: map<string, seq<Document>>

    constructor ()
      ensures collections == map[]
    {
      collections := map[];
    }

    /**
     * `_get_cached_data`: the fields of the first document of `name` stored under `importId`, less
     * `_id` and `import_id`, or None when there is none.
     */
    function GetCachedData(name: string, importId: int): (r: Option<Document>)
      reads this
      ensures r.None? <==> forall k :: 0 <= k < |Docs(collections, name)| ==> !Matches(Docs(collections, name)[k], importId)
      ensures r.Some? ==> ImportIdKey !in r.value && IdKey !in r.value
      ensures r.Some? ==> exists k :: 0 <= k < |Docs(collections, name)| && Matches(Docs(collections, name)[k], importId)
                                   && r.value == Project(Docs(collections, name)[k])
    {
      CachedIn(collections, name, importId)
    }

    /** `_cache_data`: the response data, with its `import_id`, inserted into collection `name`. */
    method CacheData(name: string, importId: int, response: Document)
      modifies this
      ensures collections == old(collections)[name := Docs(old(collections), name) + [CacheDocument(importId, response)]]
    {
      collections := collections[name := Docs(collections, name) + [CacheDocument(importId, response)]];
    }
  }

  /** The cached data of `importId` in collection `name`, as `_get_cached_data` finds it. */
  function CachedIn(collections: map<string, seq<Document>>, name: string, importId: int): (r: Option<Document>)
    ensures r.None? <==> forall k :: 0 <= k < |Docs(collections, name)| ==> !Matches(Docs(collections, name)[k], importId)
    ensures r.Some? ==> exists k :: 0 <= k < |Docs(collections, name)| && Matches(Docs(collections, name)[k], importId)
                                 && r.value == Project(Docs(collections, name)[k])
  {
    match FirstMatch(Docs(collections, name), importId)
    case None => None
    case Some(k) => Some(Project(Docs(collections, name)[k]))
  }

  /**
   * The response of the wrapped handler: the cached data with status 201 on a hit; on a miss the
   * handler's own outcome, its response unchanged or its error passed on.
   */
  function CallResult<E>(collections: map<string, seq<Document>>, name: string, importId: int,
                         handled: Result<Response, E>): (r: Result<Response, E>)
    ensures CachedIn(collections, name, importId).Some? ==>
      r == Success(Response(CachedIn(collections, name, importId).value, 201))
    ensures CachedIn(collections, name, importId).None? ==> r == handled
  {
    match CachedIn(collections, name, importId)
    case Some(cached) => Success(Response(cached, 201))
    case None => handled
  }

  /**
   * The collections after the wrapped call: one more document in `name` exactly when the cache
   * missed and the handler answered, and no other collection touched.
   */
  function AfterCall<E>(collections: map<string, seq<Document>>, name: string, importId: int,
                        handled: Result<Response, E>): (r: map<string, seq<Document>>)
    ensures r == collections <==> CachedIn(collections, name, importId).Some? || handled.Failure?
    ensures r != collections ==>
      r == collections[name := Docs(collections, name) + [CacheDocument(importId, handled.value.json)]]
    ensures forall other :: other != name ==> Docs(r, other) == Docs(collections, other)
  {
    if CachedIn(collections, name, importId).Some? || handled.Failure? then collections
    else
      var grown := collections[name := Docs(collections, name) + [CacheDocument(importId, handled.value.json)]];
      assert |Docs(grown, name)| > |Docs(collections, name)|;
      grown
  }

  /**
   * `wrap`: look up the cache; on a hit answer it; on a miss take the handler's outcome, and store
   * its response data when it answered. The handler's outcome is a parameter: a hit never uses it.
   */
  method CachedCall<E>(db: Database, name: string, importId: int, handled: Result<Response, E>)
    returns (r: Result<Response, E>)
    modifies db
    ensures r == CallResult(old(db.collections), name, importId, handled)
    ensures db.collections == AfterCall(old(db.collections), name, importId, handled)
  {
    var cached := db.GetCachedData(name, importId);
    if cached.Some? {
      return Success(Response(cached.value, 201));
    }
    if handled.Failure? {
      return handled;
    }
    db.CacheData(name, importId, handled.value.json);
    return handled;
  }

  /** On a hit the answer and the collections do not depend on what the handler would have done. */
  lemma HitIgnoresHandler<E>(collections: map<string, seq<Document>>, name: string, importId: int,
                             first: Result<Response, E>, second: Result<Response, E>)
    requires CachedIn(collections, name, importId).Some?
    ensures CallResult(collections, name, importId, first) == CallResult(collections, name, importId, second)
    ensures AfterCall(collections, name, importId, first) == collections
  {
  }

  /** A handler that raises leaves every collection as it was. */
  lemma FailureStoresNothing<E>(collections: map<string, seq<Document>>, name: string, importId: int, error: E)
    ensures AfterCall(collections, name, importId, Failure(error)) == collections
  {
  }

  /**
   * After a miss that the handler answered, the next call for the same import hits, whatever its
   * handler would do, and answers the first response's data with status 201, less its `import_id`
   * and `_id` fields, provided the response does not name another import.
   */
  lemma MissThenHit<E>(collections: map<string, seq<Document>>, name: string, importId: int,
                       response: Response, next: Result<Response, E>)
    requires CachedIn(collections, name, importId).None?
    requires ImportIdKey in response.json ==> response.json[ImportIdKey] == Number(importId)
    ensures CallResult(AfterCall<E>(collections, name, importId, Success(response)), name, importId, next)
         == Success(Response(Project(response.json), 201))
    ensures AfterCall(AfterCall<E>(collections, name, importId, Success(response)), name, importId, next)
         == AfterCall<E>(collections, name, importId, Success(response))
  {
    var docs := Docs(collections, name);
    var stored := CacheDocument(importId, response.json);
    var after := AfterCall<E>(collections, name, importId, Success(response));
    assert Docs(after, name) == docs + [stored];
    CacheRoundTrip(importId, response.json);
    FirstMatchAppend(docs, stored, importId);
  }

  /**
   * Storing one import's response leaves the cached data of every other import, and of every other
   * collection, as it was, provided the response does not name another import.
   */
  lemma OtherEntriesUntouched<E>(collections: map<string, seq<Document>>, name: string, importId: int,
                                 handled: Result<Response, E>, otherName: string, otherId: int)
    requires handled.Success? ==>
      ImportIdKey in handled.value.json ==> handled.value.json[ImportIdKey] == Number(importId)
    requires otherName != name || otherId != importId
    ensures CachedIn(AfterCall(collections, name, importId, handled), otherName, otherId)
         == CachedIn(collections, otherName, otherId)
  {
    var after := AfterCall(collections, name, importId, handled);
    if after != collections && otherName == name {
      var docs := Docs(collections, name);
      assert Docs(after, name) == docs + [CacheDocument(importId, handled.value.json)];
      FirstMatchAppend(docs, CacheDocument(importId, handled.value.json), otherId);
    }
  }

  /**
   * A document inserted at the end is found only when no earlier one matches, and leaves the first
   * match where it was otherwise.
   */
  lemma {:induction false} FirstMatchAppend(docs: seq<Document>, doc: Document, importId: int)
    ensures FirstMatch(docs + [doc], importId)
         == if FirstMatch(docs, importId).Some? then FirstMatch(docs, importId)
            else if Matches(doc, importId) then Some(|docs|) else None
  {
    if docs != [] {
      FirstMatchAppend(docs[1..], doc, importId);
      assert (docs + [doc])[1..] == docs[1..] + [doc];
    } else {
      assert ([] + [doc])[1..] == [];
    }
  }

  /** A cached `{'import_id': 0, 'test': 'aaa'}` answers `{'test': 'aaa'}` with status 201. */
  lemma CachedExample<E>(handled: Result<Response, E>)
    ensures CallResult(map["cache" := [map[ImportIdKey := Number(0), "test" := Text("aaa")]]], "cache", 0, handled)
         == Success(Response(map["test" := Text("aaa")], 201))
  {
    var doc: Document := map[ImportIdKey := Number(0), "test" := Text("aaa")];
    assert Matches(doc, 0);
    assert FirstMatch([doc], 0) == Some(0);
    assert Project(doc) == map["test" := Text("aaa")];
  }
}
