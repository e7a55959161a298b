/** The MongoDB collection behind a Spring Data `MongoRepository`: documents
    keyed by their `@Id`, and the CRUD operations the services call. */
module Store {
  import opened Common

  /** `DuplicateKeyException`: `insert` met an id already in the collection. */
  datatype StoreError = DuplicateKey(id: string)

  /** Every stored document carries the key it is stored under as its id. */
  predicate KeysMatch<T>(m: map<string, Document<T>>) {
    forall k :: k in m ==> m[k].id == Some(k)
  }

  /** The length of the longest key. */
  ghost function MaxKeyLength(keys: set<string>): (n: nat)
    ensures forall k :: k in keys ==> |k| <= n
    decreases keys
  {
    if keys == {} then 0
    else
      var k :| k in keys;
      var rest := MaxKeyLength(keys - {k});
      if |k| <= rest then rest else |k|
  }

  /** A string of `n` copies of 'x'. */
  function Filler(n: nat): (s: string)
    ensures |s| == n
  {
    if n == 0 then [] else "x" + Filler(n - 1)
  }

  /** However many documents are stored, some non-empty id is unused. */
  lemma FreshIdExists<T>(m: map<string, Document<T>>)
    ensures exists k :: k != "" && k !in m
  {
    var k := Filler(MaxKeyLength(m.Keys) + 1);
    assert k !in m;
  }

  /** `findById` on the collection `m`: the document stored under `id`, or
      nothing when no document is stored under it. In a collection whose
      documents carry their own keys, what is found carries `id`. */
  function Lookup<T>(m: map<string, Document<T>>, id: string): (r: Option<Document<T>>)
    ensures r.None? <==> id !in m
    ensures id in m ==> r == Some(m[id])
    ensures KeysMatch(m) && r.Some? ==> r.value.id == Some(id)
  {
    if id in m then Some(m[id]) else None
  }

  /** `deleteById` on the collection `m`: `id` is gone and every other
      document stays where it was. */
  function Remove<T>(m: map<string, Document<T>>, id: string): (r: map<string, Document<T>>)
    ensures id !in r && r.Keys == m.Keys - {id}
    ensures forall k :: k in r ==> r[k] == m[k]
  {
    m - {id}
  }

  /** Deleting an absent id changes nothing. */
  lemma RemoveAbsent<T>(m: map<string, Document<T>>, id: string)
    requires id !in m
    ensures Remove(m, id) == m
  {
  }

  /** Deleting twice has the effect of deleting once. */
  lemma RemoveIdempotent<T>(m: map<string, Document<T>>, id: string)
    ensures Remove(Remove(m, id), id) == Remove(m, id)
  {
  }

  /** After a delete the id is not found, and every other id finds what it
      found before. */
  lemma RemoveOnlyThatId<T>(m: map<string, Document<T>>, id: string)
    ensures Lookup(Remove(m, id), id) == None
    ensures forall k :: k != id ==> Lookup(Remove(m, id), k) == Lookup(m, k)
  {
  }

  /** Storing a document under its own id, or deleting one, keeps every
      document under its own id. */
  lemma KeysMatchPreserved<T>(m: map<string, Document<T>>, id: string, d: Document<T>)
    requires KeysMatch(m) && d.id == Some(id)
    ensures KeysMatch(m[id := d])
    ensures KeysMatch(Remove(m, id))
  {
  }

  /** What `insert(d)` does to the collection `before`, given its outcome
      `r`: a document with a taken id is refused and nothing changes; one
      with a free id is stored under it; one without an id is stored, with
      the same fields, under a fresh non-empty id. Either way no stored
      document is overwritten or removed. */
  ghost predicate Inserted<T>(before: map<string, Document<T>>, d: Document<T>,
                              r: Result<Document<T>, StoreError>, after: map<string, Document<T>>)
    ensures Inserted(before, d, r, after) ==>
      forall k :: k in before ==> k in after && after[k] == before[k]
  {
    match d.id
    case Some(k) =>
      if k in before then r == Failure(DuplicateKey(k)) && after == before
      else r == Success(d) && after == before[k := d]
    case None =>
      && r.Success? && r.value.fields == d.fields && r.value.id.Some?
      && r.value.id.value != "" && r.value.id.value !in before
      && after == before[r.value.id.value := r.value]
  }

  /** What `save(d)` does to the collection `before`: the returned document
      has the fields of `d` and its id, or a fresh non-empty one when `d` has
      none, and it replaces whatever was stored under that id. No other id
      is added or removed. */
  ghost predicate Saved<T>(before: map<string, Document<T>>, d: Document<T>,
                           saved: Document<T>, after: map<string, Document<T>>)
    ensures Saved(before, d, saved, after) ==>
      saved.id.Some? && after.Keys == before.Keys + {saved.id.value}
  {
    && saved.fields == d.fields && saved.id.Some?
    && (d.id.Some? ==> saved.id == d.id)
    && (d.id.None? ==> saved.id.value != "" && saved.id.value !in before)
    && after == before[saved.id.value := saved]
  }

  /** An insert never overwrites or removes a stored document; a
      successful one adds exactly the returned document, under its id. */
  lemma InsertKeepsStored<T>(before: map<string, Document<T>>, d: Document<T>,
                             r: Result<Document<T>, StoreError>, after: map<string, Document<T>>)
    requires Inserted(before, d, r, after)
    ensures forall k :: k in before ==> k in after && after[k] == before[k]
    ensures r.Success? ==> r.value.id.Some? && r.value.id.value !in before
    ensures r.Success? ==> after.Keys == before.Keys + {r.value.id.value}
    ensures r.Success? ==> Lookup(after, r.value.id.value) == Some(r.value)
    ensures r.Failure? ==> after == before
  {
  }

  /** An insert fails exactly when the document names an id already
      stored. */
  lemma InsertFailsOnDuplicate<T>(before: map<string, Document<T>>, d: Document<T>,
                                  r: Result<Document<T>, StoreError>, after: map<string, Document<T>>)
    requires Inserted(before, d, r, after)
    ensures r.Failure? <==> d.id.Some? && d.id.value in before
  {
  }

  /** A save stores the returned document under its id, whatever was there
      before, and leaves every other id as it was. */
  lemma SaveReplaces<T>(before: map<string, Document<T>>, d: Document<T>,
                        saved: Document<T>, after: map<string, Document<T>>)
    requires Saved(before, d, saved, after)
    ensures Lookup(after, saved.id.value) == Some(saved)
    ensures forall k :: k != saved.id.value ==> Lookup(after, k) == Lookup(before, k)
  {
  }

  /** A MongoDB collection of documents with fields of type `T`. */
  class Repository<T(==)> {
    var records: map<string, Document<T>>

    predicate Valid()
      reads this
    {
      KeysMatch(records)
    }

    /** An empty collection. */
    constructor()
      ensures Valid() && records == map[]
    {
      records := map[];
    }

    /** `insert(entity)`: a document without an id is stored under a fresh,
        non-empty id chosen by the store; a document with an id is stored
        under it unless that id is taken, which fails with a duplicate key
        and leaves the collection unchanged. */
    method Insert(d: Document<T>) returns (r: Result<Document<T>, StoreError>)
      requires Valid()
      modifies this
      ensures Valid()
      ensures Inserted(old(records), d, r, records)
    {
      match d.id
      case Some(k) =>
        if k in records {
          r := Failure(DuplicateKey(k));
        } else {
          records := records[k := d];
          r := Success(d);
        }
      case None =>
        FreshIdExists(records);
        var k :| k != "" && k !in records;
        var saved := d.(id := Some(k));
        records := records[k := saved];
        r := Success(saved);
    }

    /** `save(entity)`: an upsert. A document with an id replaces whatever
        is stored under it; one without an id is stored under a fresh id. */
    method Save(d: Document<T>) returns (saved: Document<T>)
      requires Valid()
      modifies this
      ensures Valid()
      ensures Saved(old(records), d, saved, records)
    {
      match d.id {
        case Some(k) =>
          saved := d;
        case None =>
          FreshIdExists(records);
          var k :| k != "" && k !in records;
          saved := d.(id := Some(k));
      }
      records := records[saved.id.value := saved];
    }

    /** `findById(id)`: the document stored under `id`, or empty. */
    method FindById(id: string) returns (r: Option<Document<T>>)
      requires Valid()
      ensures r == Lookup(records, id)
      ensures r.Some? ==> r.value.id == Some(id)
    {
      if id in records {
        r := Some(records[id]);
      } else {
        r := None;
      }
    }

    /** `findAll()`: every stored document. */
    method FindAll() returns (all: set<Document<T>>)
      ensures all == records.Values
    {
      all := records.Values;
    }

    /** `deleteById(id)`: removes the document stored under `id`; an absent
        id is ignored. */
    method DeleteById(id: string)
      requires Valid()
      modifies this
      ensures Valid()
      ensures records == Remove(old(records), id)
    {
      records := records - {id};
    }
  }
}
