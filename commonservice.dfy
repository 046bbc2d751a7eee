/** The generic CRUD layer every resource goes through: lookups always scoped
    to `status: "active"`, insertion, merge-and-save, bulk update with its
    404/422/200 classification, upsert and soft delete. One `Collection`
    object stands for one model's collection in the store. */
module CommonService {
  import opened Wrappers
  import opened Documents
  import opened Responses
  import Messages

  /** The paging part of a list query; absent values take the defaults. */
  datatype Query = Query(limit: Option<nat>, skip: Option<nat>)

  const DefaultLimit: nat := 50
  const DefaultSkip: nat := 0

  /** `{status: "active", ...customFilters}`: the custom conditions are spread
      after the default, so a custom `status` replaces it. */
  function Criteria(custom: Filter): (f: Filter)
    ensures forall p :: p in f <==> p in custom || p == Top("status")
    ensures forall p :: p in custom ==> f[p] == custom[p]
    ensures Top("status") !in custom ==> f[Top("status")] == Eq(Active)
  {
    ActiveFilter + custom
  }

  /** What `Criteria` selects: active documents satisfying the custom
      conditions, or, when those mention `status`, exactly the custom
      conditions. */
  lemma CriteriaMeaning(d: Doc, custom: Filter)
    ensures Top("status") !in custom ==>
              (Matches(d, Criteria(custom)) <==> IsActive(d) && Matches(d, custom))
    ensures Top("status") in custom ==> (Matches(d, Criteria(custom)) <==> Matches(d, custom))
  {
    var f := Criteria(custom);
    if Top("status") !in custom {
      if Matches(d, f) {
        assert Holds(f[Top("status")], Get(d, Top("status")));
      }
    }
  }

  /** `{_id: id, status: "active"}`. */
  function ById(id: Id): Filter {
    map[IdPath := Eq(VId(id)), Top("status") := Eq(Active)]
  }

  lemma MatchesById(d: Doc, id: Id)
    ensures Matches(d, ById(id)) <==> d.id == id && IsActive(d)
  {
    MatchesPair(d, IdPath, Eq(VId(id)), Top("status"), Eq(Active));
  }

  /** `{reference, status: "active"}`, plus `_id: {$ne: excludedId}` when an
      id to exclude is given. */
  function ByReference(reference: Reference, excludedId: Option<Id>): Filter {
    map[Top("reference") := Eq(VRef(reference)), Top("status") := Eq(Active)]
    + (if excludedId.Some? then map[IdPath := Ne(VId(excludedId.value))] else map[])
  }

  /** A document holding `reference` that `ByReference` may return. */
  predicate HoldsReference(d: Doc, reference: Reference, excludedId: Option<Id>) {
    Get(d, Top("reference")) == Some(VRef(reference)) && IsActive(d)
    && (excludedId.Some? ==> d.id != excludedId.value)
  }

  lemma MatchesByReference(d: Doc, reference: Reference, excludedId: Option<Id>)
    ensures Matches(d, ByReference(reference, excludedId)) <==> HoldsReference(d, reference, excludedId)
  {
    var f := ByReference(reference, excludedId);
    assert Top("reference") in f && Top("status") in f;
    if excludedId.Some? {
      assert IdPath in f;
    }
  }

  /** `message || UPDATED`. */
  function OrDefault(message: Option<string>, default: string): (m: string)
    ensures Truthy(message) ==> m == message.value
    ensures !Truthy(message) ==> m == default
  {
    if Truthy(message) then message.value else default
  }

  /** The top-level equality conditions of a filter: what an upsert copies
      into the document it inserts. */
  function Seed(f: Filter): (p: Patch)
    ensures forall k :: k in p <==> Top(k) in f && f[Top(k)].Eq?
    ensures forall k :: k in p ==> p[k] == f[Top(k)].v
  {
    var names := set q | q in f && q.Top? :: q.name;
    map k | k in names && f[Top(k)].Eq? :: f[Top(k)].v
  }

  /** Soft delete sets `status` to `"deleted"` on the active document with the
      id, so afterwards no document with that id is active. */
  lemma {:induction false} DeleteLeavesNoActive(docs: seq<Doc>, id: Id, deleted: Patch)
    requires "status" in deleted && deleted["status"] != Active
    ensures forall d :: d in UpdateAll(docs, ById(id), deleted, {}) ==> !(d.id == id && IsActive(d))
  {
    var r := UpdateAll(docs, ById(id), deleted, {});
    forall i | 0 <= i < |r| ensures !(r[i].id == id && IsActive(r[i])) {
      MatchesById(docs[i], id);
      if Matches(docs[i], ById(id)) {
        ApplyWithoutUnset(docs[i], deleted);
      }
    }
  }

  /** `{_id: id, status: "active"}` selects nothing exactly when no active
      document has the id. */
  lemma SelectById(docs: seq<Doc>, id: Id)
    ensures Select(docs, ById(id)) == [] <==> !exists d :: d in docs && d.id == id && IsActive(d)
  {
    var s := Select(docs, ById(id));
    if exists d :: d in docs && d.id == id && IsActive(d) {
      var d :| d in docs && d.id == id && IsActive(d);
      MatchesById(d, id);
      assert d in s;
    }
    if s != [] {
      assert s[0] in s;
      MatchesById(s[0], id);
    }
  }

  /** An update by id leaves every document other than the active one with
      that id as it was. */
  lemma UpdateByIdElsewhere(docs: seq<Doc>, id: Id, data: Patch, unset: set<Path>)
    ensures forall i :: 0 <= i < |docs| && !(docs[i].id == id && IsActive(docs[i])) ==>
              UpdateAll(docs, ById(id), data, unset)[i] == docs[i]
  {
    forall i | 0 <= i < |docs| && !(docs[i].id == id && IsActive(docs[i])) {
      MatchesById(docs[i], id);
    }
  }

  /** Soft delete changes the store whenever an active document has the id,
      and leaves no active document with it. */
  lemma SoftDelete(docs: seq<Doc>, id: Id, deleted: Patch)
    requires deleted == map["status" := VStr("deleted")]
    ensures (exists d :: d in docs && d.id == id && IsActive(d)) ==> UpdateAll(docs, ById(id), deleted, {}) != docs
    ensures forall d :: d in UpdateAll(docs, ById(id), deleted, {}) ==> !(d.id == id && IsActive(d))
  {
    DeleteLeavesNoActive(docs, id, deleted);
    if exists d :: d in docs && d.id == id && IsActive(d) {
      var i :| 0 <= i < |docs| && docs[i].id == id && IsActive(docs[i]);
      MatchesById(docs[i], id);
      ApplyWithoutUnset(docs[i], deleted);
      assert UpdateAll(docs, ById(id), deleted, {})[i] != docs[i];
    }
  }

  /** The outcome of `update` on the store `docs`: 404 exactly when nothing
      matched, 200 with `message || UPDATED` (or the raw counts) exactly when
      the store changed, and 422 exactly when the matched documents were left
      as they were. */
  function UpdateResult(docs: seq<Doc>, f: Filter, data: Patch, unset: set<Path>, autoSend: bool,
                        message: Option<string>): (r: Result<Reply>)
    ensures r.Fail? && r.error == NotFoundError(None) <==> Select(docs, f) == []
    ensures r.Ok? <==> Select(docs, f) != [] && UpdateAll(docs, f, data, unset) != docs
    ensures r.Fail? && r.error == Error(422, Messages.UnableToUpdate) <==>
              Select(docs, f) != [] && UpdateAll(docs, f, data, unset) == docs
    ensures r.Ok? ==> r.value == if autoSend
                                 then Formatted(200, NoBody, OrDefault(message, Messages.Updated), None)
                                 else Raw(Counts(|Select(docs, f)|, CountModified(docs, f, data, unset)))
  {
    var n := |Select(docs, f)|;
    var m := CountModified(docs, f, data, unset);
    UnmodifiedIffUnchanged(docs, f, data, unset);
    if n == 0 then Fail(NotFoundError(None))
    else if m != 0 then Ok(if autoSend then Formatted(200, NoBody, OrDefault(message, Messages.Updated), None)
                           else Raw(Counts(n, m)))
    else Fail(Error(422, Messages.UnableToUpdate))
  }

  class Collection {
    /** The stored documents, in the order the store returns them. */
    var docs: seq<Doc>
    /** The next fresh `_id`. */
    var nextId: Id
    /** The keys the model's schema declares; others are dropped on assignment. */
    const schema: set<string>
    /** The schema defaults applied to a new document. */
    const defaults: Patch

    ghost predicate Valid()
      reads this
    {
      (forall i :: 0 <= i < |docs| ==> docs[i].id < nextId) && UniqueIds(docs)
    }

    constructor (schema: set<string>, defaults: Patch)
      ensures Valid() && docs == [] && nextId == 0
      ensures this.schema == schema && this.defaults == defaults
    {
      docs := [];
      nextId := 0;
      this.schema := schema;
      this.defaults := defaults;
    }

    /** `Model.findOne(filter)`: the first stored document matching `f`. */
    function FindOne(f: Filter): (r: Option<Doc>)
      reads this
      ensures r.Some? ==> r.value in docs && Matches(r.value, f)
      ensures r.Some? ==> exists i :: 0 <= i < |docs| && docs[i] == r.value
                            && forall j :: 0 <= j < i ==> !Matches(docs[j], f)
      ensures r.None? <==> forall d :: d in docs ==> !Matches(d, f)
    {
      match FirstIndex(docs, f)
      case Some(i) => Some(docs[i])
      case None => None
    }

    /** `Model.find(criteria, projection).skip(skip).limit(limit)` with the
        query defaults (limit 50, skip 0). */
    function FindDocs(q: Query, custom: Filter, projection: set<string>): (r: seq<Doc>)
      reads this
      ensures q.limit.GetOr(DefaultLimit) != 0 ==> |r| <= q.limit.GetOr(DefaultLimit)
      ensures var n := |Select(docs, Criteria(custom))|;
              var skip := q.skip.GetOr(DefaultSkip);
              var limit := q.limit.GetOr(DefaultLimit);
              |r| == if skip >= n then 0 else if limit == 0 || skip + limit >= n then n - skip else limit
      ensures forall k :: 0 <= k < |r| ==>
                q.skip.GetOr(DefaultSkip) + k < |Select(docs, Criteria(custom))|
                && r[k] == Project(Select(docs, Criteria(custom))[q.skip.GetOr(DefaultSkip) + k], projection)
    {
      var s := Select(docs, Criteria(custom));
      var page := Page(s, q.skip.GetOr(DefaultSkip), q.limit.GetOr(DefaultLimit));
      seq(|page|, k requires 0 <= k < |page| => Project(page[k], projection))
    }

    /** `find`: the page of active documents, formatted with status 200. */
    function Find(q: Query, custom: Filter, projection: set<string>, autoSend: bool): (r: Reply)
      reads this
      ensures autoSend ==> r.Formatted? && r.status == 200 && r.message == Messages.Successfull
      ensures Payload(r) == Many(FindDocs(q, custom, projection))
    {
      Send(autoSend, 200, Many(FindDocs(q, custom, projection)), Messages.Successfull)
    }

    /** `findById`: the active document with the id, or a 404 error. */
    function FindById(id: Id, errKey: Option<string>, autoSend: bool): (r: Result<Reply>)
      reads this
      ensures r.Ok? <==> exists d :: d in docs && d.id == id && IsActive(d)
      ensures r.Ok? ==> Payload(r.value).One? && Payload(r.value).doc in docs
                        && Payload(r.value).doc.id == id && IsActive(Payload(r.value).doc)
      ensures r.Ok? ==> FindOne(ById(id)) == Some(Payload(r.value).doc)
      ensures r.Ok? ==> (autoSend <==> r.value.Formatted?)
      ensures r.Ok? && autoSend ==> r.value.status == 200 && r.value.message == Messages.Successfull
      ensures r.Fail? ==> r.error == NotFoundError(errKey)
    {
      match FindOne(ById(id))
      case Some(d) =>
        MatchesById(d, id);
        Ok(Send(autoSend, 200, One(d), Messages.Successfull))
      case None =>
        assert forall d :: d in docs ==> !(d.id == id && IsActive(d)) by {
          forall d | d in docs ensures !(d.id == id && IsActive(d)) { MatchesById(d, id); }
        }
        Fail(NotFoundError(errKey))
    }

    /** `findByReference`: the first active document holding `reference`
        (other than `excludedId`), or a 404 error. */
    function FindByReference(reference: Reference, excludedId: Option<Id>, errKey: Option<string>,
                             autoSend: bool): (r: Result<Reply>)
      reads this
      ensures r.Ok? <==> exists d :: d in docs && HoldsReference(d, reference, excludedId)
      ensures r.Ok? ==> Payload(r.value).One? && Payload(r.value).doc in docs
                        && HoldsReference(Payload(r.value).doc, reference, excludedId)
      ensures r.Ok? ==> (autoSend <==> r.value.Formatted?)
      ensures r.Ok? && autoSend ==> r.value.status == 200 && r.value.message == Messages.Successfull
      ensures r.Fail? ==> r.error == NotFoundError(errKey)
    {
      match FindOne(ByReference(reference, excludedId))
      case Some(d) =>
        MatchesByReference(d, reference, excludedId);
        Ok(Send(autoSend, 200, One(d), Messages.Successfull))
      case None =>
        assert forall d :: d in docs ==> !HoldsReference(d, reference, excludedId) by {
          forall d | d in docs ensures !HoldsReference(d, reference, excludedId) {
            MatchesByReference(d, reference, excludedId);
          }
        }
        Fail(NotFoundError(errKey))
    }

    /** `checkDuplicate`: `true` when no other active document holds the
        reference; otherwise a 409 error naming the holder, or the holder
        itself when `autoSend` is false. */
    function CheckDuplicate(reference: Reference, excludedId: Option<Id>, errKey: Option<string>,
                            autoSend: bool): (r: Result<Reply>)
      reads this
      ensures r == Ok(Raw(Flag(true))) <==>
                forall d :: d in docs ==> !HoldsReference(d, reference, excludedId)
      ensures r.Fail? <==> autoSend && exists d :: d in docs && HoldsReference(d, reference, excludedId)
      ensures r.Fail? ==> r.error.status == 409 && r.error.message == Messages.AlreadyExist
                          && r.error.conflictObj.Some? && r.error.conflictObj.value in docs
                          && HoldsReference(r.error.conflictObj.value, reference, excludedId)
                          && r.error.conflictKey == Some(r.error.conflictObj.value.id)
                          && (r.error.data.Some? <==> Truthy(errKey))
                          && (r.error.data.Some? ==> r.error.data.value == [(errKey.value, Messages.ReferenceExists)])
      ensures !autoSend && r != Ok(Raw(Flag(true))) ==>
                r.Ok? && r.value.Raw? && r.value.body.One? && r.value.body.doc in docs
                && HoldsReference(r.value.body.doc, reference, excludedId)
    {
      var found := FindByReference(reference, excludedId, None, false);
      if found.Fail? then Ok(Raw(Flag(true)))
      else
        var d := Payload(found.value).doc;
        if autoSend then
          Fail(ErrorInfo(409, Messages.AlreadyExist,
                         if Truthy(errKey) then Some([(errKey.value, Messages.ReferenceExists)]) else None,
                         Some(d.id), Some(d)))
        else Ok(Raw(One(d)))
    }

    /** `new Model(data)`: the schema's keys of `data` over the defaults. */
    function NewDoc(id: Id, data: Patch): (d: Doc)
      ensures d.id == id
      ensures forall k :: k in data && k in schema ==> k in d.fields && d.fields[k] == data[k]
      ensures forall k :: k in defaults && !(k in data && k in schema) ==>
                k in d.fields && d.fields[k] == defaults[k]
      ensures forall k :: k in d.fields ==> (k in data && k in schema) || k in defaults
    {
      Doc(id, defaults + Restrict(data, schema))
    }

    /** `create`: inserts a new document with a fresh id. */
    method Create(data: Patch, autoSend: bool) returns (r: Reply)
      requires Valid()
      modifies this
      ensures Valid()
      ensures docs == old(docs) + [NewDoc(old(nextId), data)] && nextId == old(nextId) + 1
      ensures r == Send(autoSend, 201, One(NewDoc(old(nextId), data)), Messages.Created)
    {
      var d := NewDoc(nextId, data);
      docs := docs + [d];
      nextId := nextId + 1;
      r := Send(autoSend, 201, One(d), Messages.Created);
    }

    /** `updateExisting`: `existingDoc.set(data)` then `save()`; the stored row
        with the document's id is replaced, or 404 when there is none. */
    method UpdateExisting(existing: Doc, data: Option<Patch>, autoSend: bool) returns (r: Result<Reply>)
      requires Valid()
      modifies this
      ensures Valid() && nextId == old(nextId)
      ensures var d := if data.Some? then Assign(existing, data.value, schema) else existing;
              if HasId(old(docs), existing.id)
              then docs == Replace(old(docs), d) && r == Ok(Send(autoSend, 200, One(d), Messages.Updated))
              else docs == old(docs) && r == Fail(NotFoundError(None))
    {
      var d := if data.Some? then Assign(existing, data.value, schema) else existing;
      if HasId(docs, d.id) {
        docs := Replace(docs, d);
        r := Ok(Send(autoSend, 200, One(d), Messages.Updated));
      } else {
        r := Fail(NotFoundError(None));
      }
    }

    /** `update`: `updateMany(filter, {$set: data, $unset: unset})` on the
        store, with the outcome `UpdateResult` classifies. With `strict`,
        keys outside the schema are dropped from `data`. */
    method Update(f: Filter, data: Patch, unset: set<Path>, autoSend: bool, message: Option<string>,
                  strict: bool) returns (r: Result<Reply>)
      requires Valid()
      modifies this
      ensures Valid() && nextId == old(nextId)
      ensures var set_ := if strict then Restrict(data, schema) else data;
              docs == UpdateAll(old(docs), f, set_, unset)
              && r == UpdateResult(old(docs), f, set_, unset, autoSend, message)
    {
      var set_ := if strict then Restrict(data, schema) else data;
      r := UpdateResult(docs, f, set_, unset, autoSend, message);
      docs := UpdateAll(docs, f, set_, unset);
    }

    /** `findOneAndUpdate(filter, data, {upsert: true, new: true})`: the first
        match is updated, or a document seeded from the filter's equalities is
        inserted; either way the result is a 201. */
    method FindOneAndUpdate(f: Filter, data: Patch, autoSend: bool) returns (r: Result<Reply>)
      requires Valid()
      modifies this
      ensures Valid()
      ensures r.Ok? && Payload(r.value).One? && Payload(r.value).doc in docs
      ensures r.value == Send(autoSend, 201, Payload(r.value), Messages.Created)
      ensures match FirstIndex(old(docs), f)
              case Some(i) =>
                docs == old(docs)[i := Apply(old(docs)[i], Restrict(data, schema), {})]
                && nextId == old(nextId) && Payload(r.value).doc == docs[i]
              case None =>
                docs == old(docs) + [Doc(old(nextId), Seed(f) + Restrict(data, schema))]
                && nextId == old(nextId) + 1 && Payload(r.value).doc == docs[|docs| - 1]
      ensures (forall p :: p in f ==> p.Top? && f[p].Eq? && p.name !in data) ==>
                Matches(Payload(r.value).doc, f)
    {
      var set_ := Restrict(data, schema);
      var d: Doc;
      match FirstIndex(docs, f) {
        case Some(i) =>
          d := Apply(docs[i], set_, {});
          ApplyWithoutUnset(docs[i], set_);
          docs := docs[i := d];
          assert docs[i] == d;
        case None =>
          d := Doc(nextId, Seed(f) + set_);
          docs := docs + [d];
          nextId := nextId + 1;
          assert docs[|docs| - 1] == d;
      }
      r := Ok(Send(autoSend, 201, One(d), Messages.Created));
      if forall p :: p in f ==> p.Top? && f[p].Eq? && p.name !in data {
        forall p | p in f ensures Holds(f[p], Get(d, p)) {
          assert p.name !in set_;
        }
      }
    }

    /** `removeById`: the active document with the id gets `status: "deleted"`
        through `update`; its errors are passed on. */
    method RemoveById(id: Id, autoSend: bool) returns (r: Result<Reply>)
      requires Valid()
      modifies this
      ensures Valid() && nextId == old(nextId)
      ensures docs == UpdateAll(old(docs), ById(id), Restrict(map["status" := VStr("deleted")], schema), {})
      ensures r.Fail? && r.error.status == 404 <==> !exists d :: d in old(docs) && d.id == id && IsActive(d)
      ensures "status" in schema ==>
                (r.Ok? <==> exists d :: d in old(docs) && d.id == id && IsActive(d))
      ensures "status" in schema ==> forall d :: d in docs ==> !(d.id == id && IsActive(d))
      ensures forall i :: 0 <= i < |docs| && !(old(docs)[i].id == id && IsActive(old(docs)[i])) ==>
                docs[i] == old(docs)[i]
      ensures r.Ok? ==> r.value == Formatted(200, NoBody, if autoSend then Messages.Deleted else Messages.Updated, None)
    {
      ghost var before := docs;
      var deleted := map["status" := VStr("deleted")];
      SelectById(before, id);
      UpdateByIdElsewhere(before, id, Restrict(deleted, schema), {});
      var u := Update(ById(id), deleted, {}, true, None, true);
      if "status" in schema {
        assert Restrict(deleted, schema) == deleted;
        SoftDelete(before, id, deleted);
      }
      if u.Fail? {
        r := u;
        return;
      }
      r := if autoSend then Ok(Formatted(200, NoBody, Messages.Deleted, None)) else u;
    }
  }
}
