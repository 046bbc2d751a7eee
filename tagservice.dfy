/** The tag registry: a tag is found by exact name among active tags, is
    created on first use, and keeps the ids of the articles carrying it in
    its `articles` array, which is changed in place and saved. The same code
    runs against any collection (the user service holds a copy of it for the
    User collection), so every operation takes the collection it works on. */
module TagService {
  import opened Wrappers
  import opened Documents
  import opened Responses
  import opened CommonService
  import Messages

  /** The filter `{name, status: "active"}`. */
  function ByName(name: string): Filter {
    map[Top("name") := Eq(VStr(name)), Top("status") := Eq(Active)]
  }

  predicate Named(d: Doc, name: string) {
    Get(d, Top("name")) == Some(VStr(name))
  }

  /** The document's name is one of `names`. */
  predicate NamedIn(d: Doc, names: seq<string>) {
    match Get(d, Top("name"))
    case Some(VStr(n)) => n in names
    case _ => false
  }

  /** Both rows carry the same name and status, so a name filter treats them
      alike. */
  predicate SameNameAndStatus(a: Doc, b: Doc) {
    Get(a, Top("name")) == Get(b, Top("name")) && Get(a, Top("status")) == Get(b, Top("status"))
  }

  lemma MatchesByName(d: Doc, name: string)
    ensures Matches(d, ByName(name)) <==> Named(d, name) && IsActive(d)
  {
    MatchesPair(d, Top("name"), Eq(VStr(name)), Top("status"), Eq(Active));
  }

  /** `findByName`: the first active document named exactly `name`, or the
      404 error, which carries `errKey` data only for a truthy `errKey`. */
  function FindByName(coll: Collection, name: string, errKey: Option<string>, autoSend: bool)
    : (r: Result<Reply>)
    reads coll
    ensures r.Ok? <==> exists d :: d in coll.docs && Named(d, name) && IsActive(d)
    ensures r.Ok? ==> Payload(r.value).One? && Payload(r.value).doc == coll.FindOne(ByName(name)).value
    ensures r.Ok? ==> var d := Payload(r.value).doc; d in coll.docs && Named(d, name) && IsActive(d)
    ensures r.Ok? ==> r.value == Send(autoSend, 200, Payload(r.value), Messages.Successfull)
    ensures r.Fail? ==> r.error == NotFoundError(errKey)
  {
    match coll.FindOne(ByName(name))
    case Some(d) =>
      MatchesByName(d, name);
      Ok(Send(autoSend, 200, One(d), Messages.Successfull))
    case None =>
      assert forall d :: d in coll.docs ==> !(Named(d, name) && IsActive(d)) by {
        forall d | d in coll.docs ensures !(Named(d, name) && IsActive(d)) {
          MatchesByName(d, name);
        }
      }
      Fail(NotFoundError(errKey))
  }

  /** A tag's `articles` array; a missing array reads as the empty default. */
  function ArticlesOf(d: Doc): (ids: seq<Id>)
    ensures "articles" in d.fields && d.fields["articles"].VIds? ==> ids == d.fields["articles"].ids
  {
    if "articles" in d.fields && d.fields["articles"].VIds? then d.fields["articles"].ids else []
  }

  /** The data of a new tag. */
  function NewTagData(name: string, articleId: Id): Patch {
    map["name" := VStr(name), "articles" := VIds([articleId])]
  }

  /** The in-memory tag after `articles.push(articleId)`. */
  function Pushed(t: Doc, articleId: Id): (p: Doc)
    ensures p.id == t.id && ArticlesOf(p) == ArticlesOf(t) + [articleId]
    ensures forall k :: k != "articles" ==> (k in p.fields <==> k in t.fields)
    ensures forall k :: k != "articles" && k in t.fields ==> p.fields[k] == t.fields[k]
  {
    Doc(t.id, t.fields["articles" := VIds(ArticlesOf(t) + [articleId])])
  }

  /** The store `after` grew from `before` by registrations: every old row
      keeps its position, its id, its name and its status, and its
      `articles` only grow at the end; new rows are appended. */
  ghost predicate Grows(before: seq<Doc>, after: seq<Doc>) {
    |before| <= |after|
    && forall i :: 0 <= i < |before| ==>
         after[i].id == before[i].id && SameNameAndStatus(after[i], before[i])
         && ArticlesOf(before[i]) <= ArticlesOf(after[i])
  }

  lemma GrowsTransitive(a: seq<Doc>, b: seq<Doc>, c: seq<Doc>)
    requires Grows(a, b) && Grows(b, c)
    ensures Grows(a, c)
  {
    forall i | 0 <= i < |a| ensures ArticlesOf(a[i]) <= ArticlesOf(c[i]) {
      assert ArticlesOf(a[i]) == ArticlesOf(b[i])[..|ArticlesOf(a[i])|];
      assert ArticlesOf(b[i]) == ArticlesOf(c[i])[..|ArticlesOf(b[i])|];
    }
  }

  /** The tag `ref` points at is stored under `ref.name` and lists
      `articleId` in its `articles`. */
  ghost predicate Registered(docs: seq<Doc>, ref: TagRef, articleId: Id) {
    exists i :: 0 <= i < |docs| && docs[i].id == ref.id && Named(docs[i], ref.name)
                && articleId in ArticlesOf(docs[i])
  }

  /** Every entry of `refs` is registered. */
  ghost predicate RegisteredAll(docs: seq<Doc>, refs: seq<TagRef>, articleId: Id) {
    forall i :: 0 <= i < |refs| ==> Registered(docs, refs[i], articleId)
  }

  /** A registration survives further registrations. */
  lemma RegisteredGrows(before: seq<Doc>, after: seq<Doc>, ref: TagRef, articleId: Id)
    requires Grows(before, after) && Registered(before, ref, articleId)
    ensures Registered(after, ref, articleId)
  {
    var i :| 0 <= i < |before| && before[i].id == ref.id && Named(before[i], ref.name)
             && articleId in ArticlesOf(before[i]);
    var k :| 0 <= k < |ArticlesOf(before[i])| && ArticlesOf(before[i])[k] == articleId;
    assert ArticlesOf(after[i])[k] == articleId;
  }

  /** Every old row whose name is not one of `names` is as it was. */
  ghost predicate UntouchedExcept(before: seq<Doc>, after: seq<Doc>, names: seq<string>) {
    |before| <= |after|
    && forall i :: 0 <= i < |before| && !NamedIn(before[i], names) ==> after[i] == before[i]
  }

  /** `createOrUpdateTags`: an unknown name creates `{name, articles: [articleId]}`;
      a known tag gets `articleId` pushed onto its `articles` and is saved with
      `{tags: <deduplicated ids>}` assigned, a key a schema without `tags`
      drops, so `articles` keeps any duplicate. */
  method CreateOrUpdateTags(coll: Collection, articleId: Id, name: string) returns (r: Result<Reply>)
    requires coll.Valid()
    modifies coll
    ensures coll.Valid()
    ensures forall x :: HasId(old(coll.docs), x) ==> HasId(coll.docs, x)
    ensures r.Ok? && r.value.Raw? && r.value.body.One? && r.value.body.doc in coll.docs
    ensures var tag := r.value.body.doc;
            match old(coll.FindOne(ByName(name)))
            case None =>
              tag == coll.NewDoc(old(coll.nextId), NewTagData(name, articleId))
              && coll.docs == old(coll.docs) + [tag]
            case Some(t) =>
              tag == Assign(Pushed(t, articleId),
                            map["tags" := VIds(Dedup(ArticlesOf(t) + [articleId]))], coll.schema)
              && coll.docs == Replace(old(coll.docs), tag)
              && ArticlesOf(tag) == ArticlesOf(t) + [articleId]
    ensures "name" in coll.schema ==> Named(r.value.body.doc, name)
    ensures old(coll.FindOne(ByName(name))).Some? || "articles" in coll.schema ==>
              articleId in ArticlesOf(r.value.body.doc)
    ensures Grows(old(coll.docs), coll.docs)
    ensures UntouchedExcept(old(coll.docs), coll.docs, [name])
  {
    var found := FindByName(coll, name, None, false);
    if found.Fail? {
      var created := coll.Create(NewTagData(name, articleId), false);
      r := Ok(created);
      AppendedGrows(old(coll.docs), Payload(created).doc, [name]);
    } else {
      var t := Payload(found.value).doc;
      MatchesByName(t, name);
      r := PushTag(coll, articleId, name, t);
    }
    GrowsKeepsIds(old(coll.docs), coll.docs);
  }

  /** The known-tag branch of `createOrUpdateTags`: `articles.push(articleId)`,
      then `updateExisting` with `{tags: <deduplicated ids>}`. */
  method PushTag(coll: Collection, articleId: Id, name: string, t: Doc) returns (r: Result<Reply>)
    requires coll.Valid() && t in coll.docs && Named(t, name)
    modifies coll
    ensures coll.Valid()
    ensures var tag := Assign(Pushed(t, articleId),
                              map["tags" := VIds(Dedup(ArticlesOf(t) + [articleId]))], coll.schema);
            r == Ok(Raw(One(tag))) && tag in coll.docs && coll.docs == Replace(old(coll.docs), tag)
            && ArticlesOf(tag) == ArticlesOf(t) + [articleId] && Named(tag, name)
    ensures Grows(old(coll.docs), coll.docs) && UntouchedExcept(old(coll.docs), coll.docs, [name])
  {
    var ids := ArticlesOf(t) + [articleId];
    var pushed := Pushed(t, articleId);
    ghost var i :| 0 <= i < |coll.docs| && coll.docs[i] == t;
    assert HasId(coll.docs, pushed.id);
    r := coll.UpdateExisting(pushed, Some(map["tags" := VIds(Dedup(ids))]), false);
    ghost var tag := Assign(pushed, map["tags" := VIds(Dedup(ids))], coll.schema);
    assert coll.docs[i] == tag;
    assert tag.fields["articles"] == pushed.fields["articles"];
    SavedGrows(old(coll.docs), i, tag, name);
  }

  /** Appending a row is a registration that touches no old row. */
  lemma AppendedGrows(docs: seq<Doc>, d: Doc, names: seq<string>)
    ensures Grows(docs, docs + [d]) && UntouchedExcept(docs, docs + [d], names)
  {
  }

  lemma GrowsKeepsIds(before: seq<Doc>, after: seq<Doc>)
    requires Grows(before, after)
    ensures forall x :: HasId(before, x) ==> HasId(after, x)
  {
    forall x | HasId(before, x) ensures HasId(after, x) {
      var j :| 0 <= j < |before| && before[j].id == x;
      assert after[j].id == x;
    }
  }

  /** Saving a grown copy of the tag at position `i` is a registration that
      touches only that tag. */
  lemma SavedGrows(docs: seq<Doc>, i: nat, tag: Doc, name: string)
    requires UniqueIds(docs) && i < |docs| && Named(docs[i], name)
    requires tag.id == docs[i].id && SameNameAndStatus(tag, docs[i]) && ArticlesOf(docs[i]) <= ArticlesOf(tag)
    ensures Grows(docs, Replace(docs, tag)) && UntouchedExcept(docs, Replace(docs, tag), [name])
  {
    var after := Replace(docs, tag);
    forall j | 0 <= j < |docs| && j != i ensures after[j] == docs[j] {
      assert docs[j].id != docs[i].id;
    }
    assert after[i] == tag;
  }

  /** `Array.prototype.indexOf`: the first position of `x`, or -1. */
  function IndexOf(s: seq<Id>, x: Id): (i: int)
    ensures -1 <= i < |s|
    ensures i == -1 <==> x !in s
    ensures i >= 0 ==> s[i] == x && x !in s[..i]
  {
    if s == [] then -1
    else if s[0] == x then 0
    else
      var j := IndexOf(s[1..], x);
      assert s[1..][..if j < 0 then 0 else j] == s[1..1 + (if j < 0 then 0 else j)];
      if j == -1 then -1 else j + 1
  }

  /** `Array.prototype.splice(start, 1)`: removes one element; a negative
      start counts from the end, and a start past either end removes nothing
      from the right or the first element from the left. */
  function Splice1(s: seq<Id>, start: int): (r: seq<Id>)
    ensures 0 <= start < |s| ==> r == s[..start] + s[start + 1..]
    ensures -|s| <= start < 0 ==> r == s[..|s| + start] + s[|s| + start + 1..]
    ensures start >= |s| ==> r == s
  {
    var k := if start < 0 then (if |s| + start < 0 then 0 else |s| + start) else start;
    if k < |s| then s[..k] + s[k + 1..] else s
  }

  /** The `articles` array after `splice(indexOf(articleId), 1)`. */
  function WithoutArticle(ids: seq<Id>, articleId: Id): seq<Id> {
    Splice1(ids, IndexOf(ids, articleId))
  }

  /** When the id is present, exactly its first occurrence goes and the other
      elements keep their order. */
  lemma RemovesFirstOccurrence(ids: seq<Id>, articleId: Id)
    requires articleId in ids
    ensures exists i :: 0 <= i < |ids| && ids[i] == articleId && articleId !in ids[..i]
                        && WithoutArticle(ids, articleId) == ids[..i] + ids[i + 1..]
    ensures multiset(WithoutArticle(ids, articleId)) == multiset(ids) - multiset{articleId}
  {
    var i := IndexOf(ids, articleId);
    assert ids == ids[..i] + [ids[i]] + ids[i + 1..];
  }

  /** When the id is absent, `indexOf` gives -1 and the last element goes. */
  lemma AbsentRemovesLast(ids: seq<Id>, articleId: Id)
    requires articleId !in ids
    ensures ids != [] ==> WithoutArticle(ids, articleId) == ids[..|ids| - 1]
    ensures ids == [] ==> WithoutArticle(ids, articleId) == []
    ensures ids != [] ==> |WithoutArticle(ids, articleId)| == |ids| - 1
  {
    if ids != [] {
      assert ids[|ids| - 1 + 1..] == [];
    }
  }

  /** Pushing an id a tag already lists leaves a duplicate in `articles`. */
  lemma PushKeepsDuplicate(ids: seq<Id>, articleId: Id)
    requires articleId in ids
    ensures !NoDuplicates(ids + [articleId])
  {
    var i := IndexOf(ids, articleId);
    assert (ids + [articleId])[i] == (ids + [articleId])[|ids|];
  }

  /** The tag `t` saved with `articleId` spliced out of its `articles`. */
  function Unlisted(t: Doc, articleId: Id, schema: set<string>): (u: Doc)
    ensures u.id == t.id && SameNameAndStatus(u, t)
  {
    Assign(t, map["articles" := VIds(WithoutArticle(ArticlesOf(t), articleId))], schema)
  }

  /** The store after `findAndRemoveTags(articleId, name)`: the first active
      tag named `name` is unlisted; every other row is as it was. */
  function Unregistered(docs: seq<Doc>, articleId: Id, name: string, schema: set<string>): (r: seq<Doc>)
    ensures |r| == |docs|
    ensures forall i :: 0 <= i < |docs| ==> r[i].id == docs[i].id && SameNameAndStatus(r[i], docs[i])
    ensures forall i :: 0 <= i < |docs| && !Named(docs[i], name) ==> r[i] == docs[i]
  {
    match FirstIndex(docs, ByName(name))
    case None => docs
    case Some(i) =>
      MatchesByName(docs[i], name);
      docs[i := Unlisted(docs[i], articleId, schema)]
  }

  /** The store after `findAndRemoveTags` for each of `names` in turn. */
  function UnregisteredAll(docs: seq<Doc>, articleId: Id, names: seq<string>, schema: set<string>)
    : (r: seq<Doc>)
    ensures |r| == |docs|
    ensures forall i :: 0 <= i < |docs| ==> r[i].id == docs[i].id && SameNameAndStatus(r[i], docs[i])
    ensures forall i :: 0 <= i < |docs| && !NamedIn(docs[i], names) ==> r[i] == docs[i]
    decreases |names|
  {
    if names == [] then docs
    else
      var last := names[|names| - 1];
      var prior := UnregisteredAll(docs, articleId, names[..|names| - 1], schema);
      assert forall i :: 0 <= i < |docs| && !NamedIn(docs[i], names) ==>
               !NamedIn(docs[i], names[..|names| - 1]) && !Named(prior[i], last);
      Unregistered(prior, articleId, last, schema)
  }

  /** A name filter finds the same first row in a store whose rows keep
      their names and statuses, even with rows appended. */
  lemma FirstByNameStable(a: seq<Doc>, b: seq<Doc>, name: string)
    requires |a| <= |b| && forall i :: 0 <= i < |a| ==> SameNameAndStatus(b[i], a[i])
    requires FirstIndex(a, ByName(name)).Some?
    ensures FirstIndex(b, ByName(name)) == FirstIndex(a, ByName(name))
  {
    var f := ByName(name);
    var i := FirstIndex(a, f).value;
    ByNameAlike(a[i], b[i], name);
    forall j | 0 <= j < i ensures !Matches(b[j], f) {
      ByNameAlike(a[j], b[j], name);
    }
    FirstIndexAt(b, f, i);
  }

  /** The first match is where a match sits with none before it. */
  lemma FirstIndexAt(docs: seq<Doc>, f: Filter, i: nat)
    requires i < |docs| && Matches(docs[i], f)
    requires forall j :: 0 <= j < i ==> !Matches(docs[j], f)
    ensures FirstIndex(docs, f) == Some(i)
  {
    var r := FirstIndex(docs, f);
    assert r.Some?;
    assert !(r.value < i);
  }

  /** Rows with the same name and status match a name filter alike. */
  lemma ByNameAlike(x: Doc, y: Doc, name: string)
    requires SameNameAndStatus(y, x)
    ensures Matches(x, ByName(name)) <==> Matches(y, ByName(name))
  {
    MatchesByName(x, name);
    MatchesByName(y, name);
  }

  /** With no name repeated, each name's first active tag, as found before
      any removal ran, ends up unlisted. */
  lemma {:induction false} UnregisteredAllFirst(docs: seq<Doc>, articleId: Id, names: seq<string>,
                                                schema: set<string>, n: string)
    requires NoDuplicates(names) && n in names && FirstIndex(docs, ByName(n)).Some?
    ensures var i := FirstIndex(docs, ByName(n)).value;
            UnregisteredAll(docs, articleId, names, schema)[i] == Unlisted(docs[i], articleId, schema)
    decreases |names|
  {
    var i := FirstIndex(docs, ByName(n)).value;
    MatchesByName(docs[i], n);
    var last := names[|names| - 1];
    var init := names[..|names| - 1];
    var prior := UnregisteredAll(docs, articleId, init, schema);
    FirstByNameStable(docs, prior, n);
    if n == last {
      assert n !in init by {
        forall k | 0 <= k < |init| ensures init[k] != n {
          assert names[k] != names[|names| - 1];
        }
      }
      assert prior[i] == docs[i];
      UnlistsFirst(prior, articleId, n, schema, i);
    } else {
      assert n in init by {
        var k :| 0 <= k < |names| && names[k] == n;
        assert k < |names| - 1 && init[k] == n;
      }
      assert NoDuplicates(init);
      UnregisteredAllFirst(docs, articleId, init, schema, n);
      assert Named(prior[i], n);
    }
  }

  /** `findAndRemoveTags(name)` unlists the first active tag of that name. */
  lemma UnlistsFirst(docs: seq<Doc>, articleId: Id, name: string, schema: set<string>, i: nat)
    requires FirstIndex(docs, ByName(name)) == Some(i)
    ensures Unregistered(docs, articleId, name, schema)[i] == Unlisted(docs[i], articleId, schema)
  {
  }

  /** For each of `names`, the first active tag of that name in `before` is
      unlisted in `after`. */
  ghost predicate FirstUnlisted(before: seq<Doc>, after: seq<Doc>, articleId: Id, names: seq<string>,
                                schema: set<string>) {
    |before| <= |after|
    && forall n :: n in names && FirstIndex(before, ByName(n)).Some? ==>
         after[FirstIndex(before, ByName(n)).value]
           == Unlisted(before[FirstIndex(before, ByName(n)).value], articleId, schema)
  }

  /** `findAndRemoveTags`: nothing happens for an unknown name; otherwise the
      tag is saved with `articleId` spliced out of `articles`. */
  method FindAndRemoveTags(coll: Collection, articleId: Id, name: string)
    requires coll.Valid()
    modifies coll
    ensures coll.Valid() && coll.nextId == old(coll.nextId)
    ensures forall x :: HasId(old(coll.docs), x) ==> HasId(coll.docs, x)
    ensures match old(coll.FindOne(ByName(name)))
            case None => coll.docs == old(coll.docs)
            case Some(t) =>
              coll.docs == Replace(old(coll.docs),
                                   Assign(t, map["articles" := VIds(WithoutArticle(ArticlesOf(t), articleId))],
                                          coll.schema))
    ensures coll.docs == Unregistered(old(coll.docs), articleId, name, coll.schema)
  {
    var found := FindByName(coll, name, None, false);
    if found.Ok? {
      var t := Payload(found.value).doc;
      var rest := WithoutArticle(ArticlesOf(t), articleId);
      ghost var i :| 0 <= i < |coll.docs| && coll.docs[i] == t;
      assert HasId(coll.docs, t.id);
      var _ := coll.UpdateExisting(t, Some(map["articles" := VIds(rest)]), false);
      assert FirstIndex(old(coll.docs), ByName(name)) == Some(i);
      assert coll.docs == old(coll.docs)[i := Unlisted(t, articleId, coll.schema)];
    }
  }
}
