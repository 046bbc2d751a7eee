/** Documents as the store holds them, and the store-side semantics the core
    relies on: MongoDB-style filters, skip/limit paging, projections,
    schema-strict assignment and `$set`/`$unset` updates. */
module Documents {
  import opened Wrappers

  type Id = nat

  /** The compound natural key `{feedSource, key}` of an article. */
  datatype Reference = Reference(feedSource: string, key: string)

  /** One entry of an article's denormalised `tags` list. */
  datatype TagRef = TagRef(name: string, id: Id)

  /** One entry of a statistics document's `statistics` list (the player
      statistics sub-schema). */
  datatype Stat = Stat(name: string, rank: Option<string>, strikeRate: Option<string>,
                       matchesPlayed: Option<int>, runsScored: Option<int>,
                       imageUrl: Option<string>)

  /** The values a document field can hold in this core. */
  datatype Value =
    | VStr(s: string)
    | VBool(b: bool)
    | VId(id: Id)
    | VRef(ref: Reference)
    | VFlags(flags: map<string, bool>)     // an article's `filters` bag
    | VPaths(paths: map<string, string>)   // an article's `imageData`: resolution -> path
    | VIds(ids: seq<Id>)                   // a tag's `articles`
    | VTags(tags: seq<TagRef>)             // an article's `tags`
    | VStats(stats: seq<Stat>)             // a statistics document's `statistics`

  /** A stored document: its `_id` and its other top-level fields. */
  datatype Doc = Doc(id: Id, fields: map<string, Value>)

  /** A field path in a filter: `_id`, a top-level field, or a flag inside a
      flag bag such as `filters.featured`. */
  datatype Path = IdPath | Top(name: string) | Sub(name: string, key: string)

  /** A condition on one path: equality, `$ne`, `$in`, `$nin`, or "missing"
      (what a filter on an `undefined` value matches). */
  datatype Cond = Eq(v: Value) | Ne(v: Value) | In(vs: set<Value>) | Nin(vs: set<Value>) | Absent

  type Filter = map<Path, Cond>
  type Patch = map<string, Value>

  function Get(d: Doc, p: Path): Option<Value> {
    match p
    case IdPath => Some(VId(d.id))
    case Top(f) => if f in d.fields then Some(d.fields[f]) else None
    case Sub(f, k) =>
      if f in d.fields && d.fields[f].VFlags? && k in d.fields[f].flags
      then Some(VBool(d.fields[f].flags[k]))
      else None
  }

  /** MongoDB's reading of one condition against a possibly missing value. */
  predicate Holds(c: Cond, v: Option<Value>) {
    match c
    case Eq(x) => v == Some(x)
    case Ne(x) => v != Some(x)
    case In(xs) => v.Some? && v.value in xs
    case Nin(xs) => v.None? || v.value !in xs
    case Absent => v.None?
  }

  /** JavaScript truthiness of a possibly missing field value. */
  predicate TruthyValue(v: Option<Value>) {
    match v
    case None => false
    case Some(VStr(s)) => s != ""
    case Some(VBool(b)) => b
    case Some(_) => true
  }

  /** A document matches a filter when every condition of the filter holds. */
  predicate Matches(d: Doc, f: Filter) {
    forall p :: p in f ==> Holds(f[p], Get(d, p))
  }

  const Active := VStr("active")
  const ActiveFilter: Filter := map[Top("status") := Eq(Active)]

  predicate IsActive(d: Doc) {
    Get(d, Top("status")) == Some(Active)
  }

  lemma MatchesActiveFilter(d: Doc)
    ensures Matches(d, ActiveFilter) <==> IsActive(d)
  {
    assert Top("status") in ActiveFilter;
  }

  /** A filter on two distinct paths holds exactly when both conditions hold. */
  lemma MatchesPair(d: Doc, p: Path, c: Cond, q: Path, e: Cond)
    requires p != q
    ensures Matches(d, map[p := c, q := e]) <==> Holds(c, Get(d, p)) && Holds(e, Get(d, q))
  {
    var f := map[p := c, q := e];
    assert p in f && q in f;
  }

  /** The documents of `docs` that match `f`, in store order. */
  function Select(docs: seq<Doc>, f: Filter): (r: seq<Doc>)
    ensures |r| <= |docs|
    ensures forall d :: d in r <==> d in docs && Matches(d, f)
  {
    if docs == [] then []
    else if Matches(docs[0], f) then [docs[0]] + Select(docs[1..], f)
    else Select(docs[1..], f)
  }

  /** The position of the first document matching `f` (what `findOne` picks). */
  function FirstIndex(docs: seq<Doc>, f: Filter): (r: Option<nat>)
    ensures r.Some? ==> r.value < |docs| && Matches(docs[r.value], f)
    ensures r.Some? ==> forall j :: 0 <= j < r.value ==> !Matches(docs[j], f)
    ensures r.None? ==> forall j :: 0 <= j < |docs| ==> !Matches(docs[j], f)
  {
    if docs == [] then None
    else if Matches(docs[0], f) then Some(0)
    else match FirstIndex(docs[1..], f)
      case None => None
      case Some(i) => Some(i + 1)
  }

  /** `.skip(skip).limit(limit)`; a limit of 0 means "no limit" in MongoDB. */
  function Page(s: seq<Doc>, skip: nat, limit: nat): (r: seq<Doc>)
    ensures skip >= |s| ==> r == []
    ensures skip < |s| && (limit == 0 || skip + limit >= |s|) ==> |r| == |s| - skip
    ensures skip < |s| && limit != 0 && skip + limit < |s| ==> |r| == limit
    ensures forall k :: 0 <= k < |r| ==> skip + k < |s| && r[k] == s[skip + k]
  {
    if skip >= |s| then []
    else if limit == 0 || skip + limit >= |s| then s[skip..]
    else s[skip..skip + limit]
  }

  /** A projection keeps `_id` and the named fields; the empty projection keeps all. */
  function Project(d: Doc, projection: set<string>): (r: Doc)
    ensures r.id == d.id
    ensures forall k :: k in r.fields ==> k in d.fields && r.fields[k] == d.fields[k]
    ensures forall k :: k in d.fields && (projection == {} || k in projection) ==> k in r.fields
  {
    if projection == {} then d
    else Doc(d.id, map k | k in d.fields && k in projection :: d.fields[k])
  }

  /** Schema-strict assignment: keys outside the schema are dropped. */
  function Restrict(data: Patch, schema: set<string>): (r: Patch)
    ensures forall k :: k in r <==> k in data && k in schema
    ensures forall k :: k in r ==> r[k] == data[k]
  {
    map k | k in data && k in schema :: data[k]
  }

  /** `existingDoc.set(data)` on a schema-strict document. */
  function Assign(d: Doc, data: Patch, schema: set<string>): (r: Doc)
    ensures r.id == d.id
    ensures forall k :: k in data && k in schema ==> k in r.fields && r.fields[k] == data[k]
    ensures forall k :: k !in data || k !in schema ==> (k in r.fields <==> k in d.fields)
    ensures forall k :: k in d.fields && (k !in data || k !in schema) ==> r.fields[k] == d.fields[k]
  {
    Doc(d.id, d.fields + Restrict(data, schema))
  }

  /** Removes the flags named by `$unset` paths `name.key` from a flag bag. */
  function Unflag(name: string, v: Value, unset: set<Path>): Value {
    if v.VFlags? then VFlags(map n | n in v.flags && Sub(name, n) !in unset :: v.flags[n]) else v
  }

  /** One document after `{$set: data, $unset: unset}`. */
  function Apply(d: Doc, data: Patch, unset: set<Path>): (r: Doc)
    ensures r.id == d.id
  {
    var f := d.fields + data;
    Doc(d.id, map k | k in f && Top(k) !in unset :: Unflag(k, f[k], unset))
  }

  /** Unsetting `name.key` removes exactly that flag: every other flag and
      every other top-level field reads as before. */
  lemma UnsetFlag(d: Doc, name: string, key: string, p: Path)
    ensures Get(Apply(d, map[], {Sub(name, key)}), Sub(name, key)) == None
    ensures p != Sub(name, key) && p != Top(name) ==>
              Get(Apply(d, map[], {Sub(name, key)}), p) == Get(d, p)
  {
    var u := {Sub(name, key)};
    var r := Apply(d, map[], u);
    assert d.fields + map[] == d.fields;
    match p
    case IdPath =>
    case Top(f) =>
      if f in d.fields && f != name {
        var v := d.fields[f];
        if v.VFlags? {
          assert Unflag(f, v, u).flags == v.flags;
        }
        assert r.fields[f] == v;
      }
    case Sub(f, k) =>
      if f in d.fields && d.fields[f].VFlags? {
        var v := d.fields[f];
        assert r.fields[f] == Unflag(f, v, u);
        if k in v.flags && Sub(f, k) != Sub(name, key) {
          assert Sub(f, k) !in u;
          assert k in r.fields[f].flags;
        }
      }
  }

  /** With nothing to unset, an update is a plain field-wise overwrite. */
  lemma ApplyWithoutUnset(d: Doc, data: Patch)
    ensures Apply(d, data, {}) == Doc(d.id, d.fields + data)
  {
    var f := d.fields + data;
    var r := Apply(d, data, {});
    forall k | k in f ensures Unflag(k, f[k], {}) == f[k] {
      if f[k].VFlags? {
        assert Unflag(k, f[k], {}).flags == f[k].flags;
      }
    }
    assert r.fields == f;
  }

  /** `updateMany(filter, {$set: data, $unset: unset})` on the whole store. */
  function UpdateAll(docs: seq<Doc>, f: Filter, data: Patch, unset: set<Path>): (r: seq<Doc>)
    ensures |r| == |docs|
    ensures forall i :: 0 <= i < |docs| ==> r[i].id == docs[i].id
    ensures forall i :: 0 <= i < |docs| ==>
              r[i] == if Matches(docs[i], f) then Apply(docs[i], data, unset) else docs[i]
  {
    if docs == [] then []
    else [if Matches(docs[0], f) then Apply(docs[0], data, unset) else docs[0]]
         + UpdateAll(docs[1..], f, data, unset)
  }

  /** `nModified`: the matched documents the update actually changed. */
  function CountModified(docs: seq<Doc>, f: Filter, data: Patch, unset: set<Path>): (n: nat)
    ensures n <= |Select(docs, f)|
  {
    if docs == [] then 0
    else (if Matches(docs[0], f) && Apply(docs[0], data, unset) != docs[0] then 1 else 0)
         + CountModified(docs[1..], f, data, unset)
  }

  /** `nModified` is zero exactly when the update leaves the store as it was. */
  lemma {:induction false} UnmodifiedIffUnchanged(docs: seq<Doc>, f: Filter, data: Patch, unset: set<Path>)
    ensures CountModified(docs, f, data, unset) == 0 <==> UpdateAll(docs, f, data, unset) == docs
  {
    if docs != [] {
      UnmodifiedIffUnchanged(docs[1..], f, data, unset);
      var r := UpdateAll(docs, f, data, unset);
      assert r == [r[0]] + UpdateAll(docs[1..], f, data, unset);
      assert docs == [docs[0]] + docs[1..];
    }
  }

  /** `save()` of an in-memory document: the stored row with its id is replaced. */
  function Replace(docs: seq<Doc>, d: Doc): (r: seq<Doc>)
    ensures |r| == |docs|
    ensures forall i :: 0 <= i < |docs| ==> r[i].id == docs[i].id
    ensures forall i :: 0 <= i < |docs| ==> r[i] == if docs[i].id == d.id then d else docs[i]
  {
    seq(|docs|, i requires 0 <= i < |docs| => if docs[i].id == d.id then d else docs[i])
  }

  predicate HasId(docs: seq<Doc>, id: Id) {
    exists i :: 0 <= i < |docs| && docs[i].id == id
  }

  /** No two stored documents share an `_id`. */
  ghost predicate UniqueIds(docs: seq<Doc>) {
    forall i, j :: 0 <= i < j < |docs| ==> docs[i].id != docs[j].id
  }
}
