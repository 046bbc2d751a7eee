/** The article-specific queries and bulk operations: the list filter, related
    articles, the one-featured-article-per-type cleanup and bulk updates by id. */
module ArticleService {
  import opened Wrappers
  import opened Documents
  import opened Responses
  import opened CommonService
  import Messages

  /** The validated list query. */
  datatype ListQuery = ListQuery(page: Query, filters: Option<seq<string>>,
                                 approvalStatus: Option<seq<string>>,
                                 types: Option<seq<string>>, isDraft: Option<bool>)

  function Strs(xs: seq<string>): (r: set<Value>)
    ensures forall v :: v in r <==> exists x :: x in xs && v == VStr(x)
  {
    set x | x in xs :: VStr(x)
  }

  const FeaturedPath := Sub("filters", "featured")
  const Approved := VStr("approved")

  /** `filters.<name>: true` for every requested name. */
  function FlagConditions(names: seq<string>): (f: Filter)
    ensures forall p :: p in f <==> p.Sub? && p.name == "filters" && p.key in names
    ensures forall p :: p in f ==> f[p] == Eq(VBool(true))
  {
    map n | n in names :: Sub("filters", n) := Eq(VBool(true))
  }

  lemma FlagConditionsSnoc(names: seq<string>, n: string)
    ensures FlagConditions(names + [n]) == FlagConditions(names)[Sub("filters", n) := Eq(VBool(true))]
  {
    var a := FlagConditions(names + [n]);
    var b := FlagConditions(names)[Sub("filters", n) := Eq(VBool(true))];
    assert forall p :: p in a <==> p in b;
  }

  /** The custom conditions `find` hands to the generic `find`. */
  function ListFilter(q: ListQuery): Filter {
    (if q.filters.Some? then FlagConditions(q.filters.value) else map[])
    + (if q.types.Some? then map[Top("type") := In(Strs(q.types.value))] else map[])
    + map[Top("approvalStatus") :=
            if q.approvalStatus.Some? then In(Strs(q.approvalStatus.value)) else Eq(Approved)]
    + map[Top("isDraft") := Eq(VBool(q.isDraft.GetOr(false)))]
  }

  /** What a listed article satisfies, condition by condition. */
  predicate Listed(d: Doc, q: ListQuery) {
    (q.filters.Some? ==> forall n :: n in q.filters.value ==> Get(d, Sub("filters", n)) == Some(VBool(true)))
    && (q.types.Some? ==> exists t :: t in q.types.value && Get(d, Top("type")) == Some(VStr(t)))
    && (if q.approvalStatus.Some?
        then exists a :: a in q.approvalStatus.value && Get(d, Top("approvalStatus")) == Some(VStr(a))
        else Get(d, Top("approvalStatus")) == Some(Approved))
    && Get(d, Top("isDraft")) == Some(VBool(q.isDraft.GetOr(false)))
  }

  /** Each requested filter name demands `filters.<name> == true`, `types`
      restricts `type`, approval defaults to `"approved"` and `isDraft` to false. */
  lemma ListFilterMeaning(d: Doc, q: ListQuery)
    ensures Matches(d, ListFilter(q)) <==> Listed(d, q)
    ensures Top("status") !in ListFilter(q)
  {
    var f := ListFilter(q);
    var aCond := if q.approvalStatus.Some? then In(Strs(q.approvalStatus.value)) else Eq(Approved);
    assert Top("approvalStatus") in f && f[Top("approvalStatus")] == aCond;
    assert Top("isDraft") in f && f[Top("isDraft")] == Eq(VBool(q.isDraft.GetOr(false)));
    if q.types.Some? {
      assert Top("type") in f && f[Top("type")] == In(Strs(q.types.value));
    }
    if q.filters.Some? {
      forall n | n in q.filters.value
        ensures Sub("filters", n) in f && f[Sub("filters", n)] == Eq(VBool(true))
      {
      }
    }
    if Listed(d, q) {
      forall p | p in f ensures Holds(f[p], Get(d, p)) {
        if p.Sub? {
          assert q.filters.Some? && p.key in q.filters.value;
        }
      }
    }
  }

  /** `filters.<name>: true` assigned name by name, as the source's loop does. */
  method AddFlagConditions(names: seq<string>) returns (f: Filter)
    ensures f == FlagConditions(names)
  {
    f := map[];
    for i := 0 to |names|
      invariant f == FlagConditions(names[..i])
    {
      assert names[..i + 1] == names[..i] + [names[i]];
      FlagConditionsSnoc(names[..i], names[i]);
      f := f[Sub("filters", names[i]) := Eq(VBool(true))];
    }
    assert names[..|names|] == names;
  }

  /** The whole filter built step by step equals `ListFilter`. */
  method BuildListFilter(q: ListQuery) returns (f: Filter)
    ensures f == ListFilter(q)
  {
    f := map[];
    if q.filters.Some? {
      f := AddFlagConditions(q.filters.value);
    }
    if q.types.Some? {
      f := f[Top("type") := In(Strs(q.types.value))];
    }
    f := f[Top("approvalStatus") :=
             if q.approvalStatus.Some? then In(Strs(q.approvalStatus.value)) else Eq(Approved)];
    f := f[Top("isDraft") := Eq(VBool(q.isDraft.GetOr(false)))];
  }

  /** The articles `find` pages through are exactly the active stored
      articles meeting the list conditions. */
  lemma ListingMeaning(docs: seq<Doc>, q: ListQuery)
    ensures forall d :: d in Select(docs, Criteria(ListFilter(q))) <==> d in docs && IsActive(d) && Listed(d, q)
  {
    forall d ensures Matches(d, Criteria(ListFilter(q))) <==> IsActive(d) && Listed(d, q) {
      ListFilterMeaning(d, q);
      CriteriaMeaning(d, ListFilter(q));
    }
  }

  /** `find`: the filter is built condition by condition and handed to the
      generic `find`, so the page holds projections of the active stored
      articles meeting the list conditions, in store order. */
  method Find(coll: Collection, q: ListQuery, projection: set<string>, autoSend: bool) returns (r: Reply)
    ensures r == coll.Find(q.page, ListFilter(q), projection, autoSend)
    ensures Payload(r).Many?
    ensures forall k :: 0 <= k < |Payload(r).docs| ==>
              var listing := Select(coll.docs, Criteria(ListFilter(q)));
              q.page.skip.GetOr(DefaultSkip) + k < |listing|
              && listing[q.page.skip.GetOr(DefaultSkip) + k] in coll.docs
              && IsActive(listing[q.page.skip.GetOr(DefaultSkip) + k])
              && Listed(listing[q.page.skip.GetOr(DefaultSkip) + k], q)
              && Payload(r).docs[k] == Project(listing[q.page.skip.GetOr(DefaultSkip) + k], projection)
  {
    var f := BuildListFilter(q);
    r := coll.Find(q.page, f, projection, autoSend);
    ListingMeaning(coll.docs, q);
    var listing := Select(coll.docs, Criteria(f));
    var page := Payload(r).docs;
    forall k | 0 <= k < |page|
      ensures q.page.skip.GetOr(DefaultSkip) + k < |listing|
      ensures listing[q.page.skip.GetOr(DefaultSkip) + k] in listing
      ensures page[k] == Project(listing[q.page.skip.GetOr(DefaultSkip) + k], projection)
    {
    }
  }

  /** `type: article.type`; an undefined type matches documents without one. */
  function SameType(a: Doc): Cond {
    match Get(a, Top("type"))
    case Some(t) => Eq(t)
    case None => Absent
  }

  lemma HoldsSameType(a: Doc, d: Doc)
    ensures Holds(SameType(a), Get(d, Top("type"))) <==> Get(d, Top("type")) == Get(a, Top("type"))
  {
  }

  const RelatedProjection: set<string> := {"description", "imageData", "updatedAt", "reference"}

  function RelatedFilter(a: Doc): Filter
    requires Get(a, Top("matchId")).Some?
  {
    map[Top("matchId") := Eq(Get(a, Top("matchId")).value),
        Top("approvalStatus") := Eq(Approved),
        Top("type") := SameType(a),
        IdPath := Nin({VId(a.id)})]
  }

  /** A candidate related article of `a`. */
  predicate Related(d: Doc, a: Doc) {
    IsActive(d) && Get(d, Top("matchId")) == Get(a, Top("matchId"))
    && Get(d, Top("approvalStatus")) == Some(Approved)
    && Get(d, Top("type")) == Get(a, Top("type")) && d.id != a.id
  }

  lemma MatchesRelated(d: Doc, a: Doc)
    requires Get(a, Top("matchId")).Some?
    ensures Matches(d, Criteria(RelatedFilter(a))) <==> Related(d, a)
  {
    var f := RelatedFilter(a);
    CriteriaMeaning(d, f);
    assert Top("matchId") in f && Top("approvalStatus") in f && Top("type") in f && IdPath in f;
    HoldsSameType(a, d);
  }

  /** `x` is the projection of a stored article related to `a`. */
  ghost predicate ProjectsRelated(docs: seq<Doc>, a: Doc, x: Doc) {
    exists d :: d in docs && Related(d, a) && x == Project(d, RelatedProjection)
  }

  /** `findRelatedArticle`: up to 50 active, approved articles sharing the
      article's `matchId` and `type`, never the article itself, projected to
      the listed fields, in store order; none when the article has no
      `matchId`. */
  function FindRelatedArticle(coll: Collection, a: Doc): (r: seq<Doc>)
    reads coll
    ensures !TruthyValue(Get(a, Top("matchId"))) ==> r == []
    ensures |r| <= DefaultLimit
    ensures forall k :: 0 <= k < |r| ==> r[k].id != a.id && ProjectsRelated(coll.docs, a, r[k])
    ensures TruthyValue(Get(a, Top("matchId"))) ==>
              var related := Select(coll.docs, Criteria(RelatedFilter(a)));
              |r| == (if |related| < DefaultLimit then |related| else DefaultLimit)
              && forall k :: 0 <= k < |r| ==> r[k] == Project(related[k], RelatedProjection)
  {
    if TruthyValue(Get(a, Top("matchId"))) then
      var found := coll.FindDocs(Query(None, None), RelatedFilter(a), RelatedProjection);
      RelatedFound(coll, a, found);
      found
    else []
  }

  /** Every document of the related query is the projection of a stored
      article related to `a`, so never `a` itself. */
  lemma RelatedFound(coll: Collection, a: Doc, found: seq<Doc>)
    requires Get(a, Top("matchId")).Some?
    requires found == coll.FindDocs(Query(None, None), RelatedFilter(a), RelatedProjection)
    ensures forall k :: 0 <= k < |found| ==> found[k].id != a.id && ProjectsRelated(coll.docs, a, found[k])
  {
    var selected := Select(coll.docs, Criteria(RelatedFilter(a)));
    forall k | 0 <= k < |found|
      ensures found[k].id != a.id && ProjectsRelated(coll.docs, a, found[k])
    {
      var d := selected[k];
      assert d in selected;
      MatchesRelated(d, a);
    }
  }

  /** With at most 50 related articles stored, every one of them is found. */
  lemma RelatedComplete(coll: Collection, a: Doc, d: Doc)
    requires TruthyValue(Get(a, Top("matchId")))
    requires |Select(coll.docs, Criteria(RelatedFilter(a)))| <= DefaultLimit
    requires d in coll.docs && Related(d, a)
    ensures Project(d, RelatedProjection) in FindRelatedArticle(coll, a)
  {
    var selected := Select(coll.docs, Criteria(RelatedFilter(a)));
    var found := FindRelatedArticle(coll, a);
    MatchesRelated(d, a);
    assert d in selected;
    var k :| 0 <= k < |selected| && selected[k] == d;
    assert found[k] == Project(d, RelatedProjection);
  }

  /** The current article is featured and approved. */
  predicate FeaturedAndApproved(cur: Doc) {
    TruthyValue(Get(cur, FeaturedPath)) && Get(cur, Top("approvalStatus")) == Some(Approved)
  }

  /** The other active, approved, featured articles of the current one's type. */
  function FeaturedFilter(cur: Doc): Filter {
    map[Top("status") := Eq(Active),
        Top("approvalStatus") := Eq(Approved),
        Top("type") := SameType(cur),
        IdPath := Ne(VId(cur.id)),
        FeaturedPath := Eq(VBool(true))]
  }

  /** A document that competes with `cur` for the featured slot. */
  predicate Competes(d: Doc, cur: Doc) {
    d.id != cur.id && IsActive(d) && Get(d, Top("approvalStatus")) == Some(Approved)
    && Get(d, Top("type")) == Get(cur, Top("type"))
  }

  lemma MatchesFeatured(d: Doc, cur: Doc)
    ensures Matches(d, FeaturedFilter(cur)) <==> Competes(d, cur) && Get(d, FeaturedPath) == Some(VBool(true))
  {
    var f := FeaturedFilter(cur);
    assert Top("status") in f && Top("approvalStatus") in f && Top("type") in f && IdPath in f && FeaturedPath in f;
    HoldsSameType(cur, d);
  }

  /** After the cleanup no competing article is featured; the current article
      and the articles of other types are as they were. */
  lemma {:induction false} FeaturedCleanup(docs: seq<Doc>, cur: Doc)
    ensures var r := UpdateAll(docs, FeaturedFilter(cur), map[], {FeaturedPath});
            |r| == |docs|
            && (forall i :: 0 <= i < |r| && Competes(r[i], cur) ==> Get(r[i], FeaturedPath) != Some(VBool(true)))
            && (forall i :: 0 <= i < |r| && docs[i].id == cur.id ==> r[i] == docs[i])
            && (forall i :: 0 <= i < |r| && Get(docs[i], Top("type")) != Get(cur, Top("type")) ==> r[i] == docs[i])
            && (forall i :: 0 <= i < |r| ==> r[i].id == docs[i].id && Competes(r[i], cur) == Competes(docs[i], cur))
  {
    var r := UpdateAll(docs, FeaturedFilter(cur), map[], {FeaturedPath});
    forall i | 0 <= i < |r|
      ensures Competes(r[i], cur) ==> Get(r[i], FeaturedPath) != Some(VBool(true))
      ensures docs[i].id == cur.id ==> r[i] == docs[i]
      ensures Get(docs[i], Top("type")) != Get(cur, Top("type")) ==> r[i] == docs[i]
      ensures r[i].id == docs[i].id && Competes(r[i], cur) == Competes(docs[i], cur)
    {
      MatchesFeatured(docs[i], cur);
      UnsetFlag(docs[i], "filters", "featured", Top("status"));
      UnsetFlag(docs[i], "filters", "featured", Top("approvalStatus"));
      UnsetFlag(docs[i], "filters", "featured", Top("type"));
    }
  }

  /** `removeFeaturedArticles`: when the current article is featured and
      approved, `featured` is unset on every competing featured article. */
  method RemoveFeaturedArticles(coll: Collection, cur: Doc)
    requires coll.Valid()
    modifies coll
    ensures coll.Valid() && coll.nextId == old(coll.nextId)
    ensures !FeaturedAndApproved(cur) ==> coll.docs == old(coll.docs)
    ensures FeaturedAndApproved(cur) ==>
              coll.docs == UpdateAll(old(coll.docs), FeaturedFilter(cur), map[], {FeaturedPath})
  {
    if FeaturedAndApproved(cur) {
      var _ := coll.Update(FeaturedFilter(cur), map[], {FeaturedPath}, false, None, false);
    }
  }

  /** `{_id: {$in: ids}}`. */
  function IdsFilter(ids: seq<Id>): Filter {
    map[IdPath := In(set id | id in ids :: VId(id))]
  }

  lemma MatchesIds(d: Doc, ids: seq<Id>)
    ensures Matches(d, IdsFilter(ids)) <==> d.id in ids
  {
    assert IdPath in IdsFilter(ids);
  }

  /** `bulkUpdate`: `update` over exactly the documents whose id is listed,
      whatever their status, with the same 404/422/200 outcome. */
  method BulkUpdate(coll: Collection, ids: seq<Id>, data: Patch, unset: set<Path>, autoSend: bool,
                    message: Option<string>) returns (r: Result<Reply>)
    requires coll.Valid()
    modifies coll
    ensures coll.Valid() && coll.nextId == old(coll.nextId)
    ensures coll.docs == UpdateAll(old(coll.docs), IdsFilter(ids), Restrict(data, coll.schema), unset)
    ensures forall i :: 0 <= i < |coll.docs| && old(coll.docs)[i].id !in ids ==> coll.docs[i] == old(coll.docs)[i]
    ensures r.Fail? && r.error == NotFoundError(None) <==> forall d :: d in old(coll.docs) ==> d.id !in ids
    ensures r.Ok? <==> (exists d :: d in old(coll.docs) && d.id in ids) && coll.docs != old(coll.docs)
    ensures r.Fail? && r.error == Error(422, Messages.UnableToUpdate) <==>
              (exists d :: d in old(coll.docs) && d.id in ids) && coll.docs == old(coll.docs)
    ensures r.Ok? && autoSend ==> r.value == Formatted(200, NoBody, OrDefault(message, Messages.Updated), None)
  {
    ghost var before := coll.docs;
    SelectIds(before, ids);
    forall i | 0 <= i < |before| && before[i].id !in ids
      ensures !Matches(before[i], IdsFilter(ids))
    {
      MatchesIds(before[i], ids);
    }
    r := coll.Update(IdsFilter(ids), data, unset, autoSend, message, true);
  }

  lemma SelectIds(docs: seq<Doc>, ids: seq<Id>)
    ensures Select(docs, IdsFilter(ids)) == [] <==> forall d :: d in docs ==> d.id !in ids
  {
    var s := Select(docs, IdsFilter(ids));
    if exists d :: d in docs && d.id in ids {
      var d :| d in docs && d.id in ids;
      MatchesIds(d, ids);
      assert d in s;
    }
    if s != [] {
      assert s[0] in s;
      MatchesIds(s[0], ids);
    }
  }
}
