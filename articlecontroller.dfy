/** The article controller: the article view, the create and update
    pipelines (duplicate check or lookup, content upload and image scaling,
    the store write, the featured-slot cleanup and the tag bookkeeping),
    removal and the two bulk operations. Validation has already run: the
    bodies below are the validated ones. */
module ArticleController {
  import opened Wrappers
  import opened Documents
  import opened Responses
  import opened CommonService
  import opened ArticleService
  import opened Collaborators
  import TagService
  import Statistics
  import Schemas
  import Messages

  /** The `imageData` of a request body: a base64 image and its extension. */
  datatype ImageUpload = ImageUpload(base64: string, extension: Option<string>)

  /** A validated article body: the keys handed to the store as they are
      (`fields`), and the four keys the controller handles itself. */
  datatype ArticleBody = ArticleBody(fields: Patch, filters: Option<seq<string>>,
                                     content: Option<string>, image: Option<ImageUpload>,
                                     tagList: Option<seq<string>>)

  /** A stored string field; a missing one reads as `undefined`. */
  function StoredString(d: Doc, key: string): Option<string> {
    match Get(d, Top(key))
    case Some(VStr(s)) => Some(s)
    case _ => None
  }

  // ---------------------------------------------------------------- get

  /** `get`: the active article with the id, its related articles, its
      content read from the blob store ("" when it has none) and its player
      statistics document, if any, as a 200 response. An unknown id gives the
      404 error; a failed read gives the store's 422 error. */
  function GetArticle(articles: Collection, stats: Collection, blobs: BlobStore, id: Id): (r: Result<Reply>)
    reads articles, stats, blobs
    ensures r == Fail(NotFoundError(None)) <==> !(exists d :: d in articles.docs && d.id == id && IsActive(d))
    ensures r.Fail? ==> r.error == NotFoundError(None) || r.error == Error(422, Messages.HdfsReadFailed)
    ensures articles.FindOne(ById(id)).Some? ==>
              var d := articles.FindOne(ById(id)).value;
              d.id == id && IsActive(d)
              && (r.Ok? <==> blobs.GetFileContent(StoredString(d, "contentPath")).Ok?)
              && (r.Ok? ==> Payload(r.value).ArticleView? && Payload(r.value).article == d)
    ensures r.Ok? ==> r.value.Formatted? && r.value.status == 200 && r.value.message == Messages.Successfull
                      && r.value.cookie.None? && r.value.data.ArticleView?
    ensures r.Ok? ==>
              var v := r.value.data;
              var content := blobs.GetFileContent(StoredString(v.article, "contentPath"));
              v.article in articles.docs && v.article.id == id && IsActive(v.article)
              && v.related == FindRelatedArticle(articles, v.article)
              && content.Ok? && v.content == content.value.GetOr("")
              && v.statistics == stats.FindOne(Statistics.ByKey(id))
  {
    match articles.FindById(id, None, true)
    case Fail(e) => Fail(e)
    case Ok(found) =>
      var doc := Payload(found).doc;
      var related := FindRelatedArticle(articles, doc);
      var content := blobs.GetFileContent(StoredString(doc, "contentPath"));
      var statistics := stats.FindOne(Statistics.ByKey(id));
      if content.Fail? then Fail(content.error)
      else Ok(Formatted(200, ArticleView(doc, related, content.value.GetOr(""), statistics),
                        Messages.Successfull, None))
  }

  // ------------------------------------------- upload and image scaling

  /** The scaling arguments `(imageData && imageData.base64) || ""` and
      `(imageData && imageData.extension) || ""`. */
  function ImageArgs(image: Option<ImageUpload>): (string, string) {
    if image.None? then ("", "") else (image.value.base64, image.value.extension.GetOr(""))
  }

  /** The upload's result when it does not fail: the path written, or
      nothing for falsy content. */
  function UploadedPath(content: Option<string>, path: Option<string>, salt: string): Option<string> {
    if Truthy(content) then Some(BlobStore.ContentPath(path, salt)) else None
  }

  /** The scaling's result when it does not fail: the paths per resolution,
      or nothing without an image and its extension. */
  function ScaledOf(image: Option<ImageUpload>, spec: map<string, ResSpec>, imageSalt: string -> string)
    : Option<map<string, string>>
  {
    var args := ImageArgs(image);
    if args.0 != "" && args.1 != "" then Some(ImageDeriver.ScaledPaths(spec, args.1, imageSalt)) else None
  }

  predicate UploadFails(blobs: BlobStore, content: Option<string>)
    reads blobs
  {
    Truthy(content) && blobs.failing
  }

  predicate ScalingFails(images: ImageDeriver, image: Option<ImageUpload>)
    reads images
  {
    var args := ImageArgs(image);
    args.0 != "" && args.1 != "" && images.fault.Some?
  }

  /** `Promise.all` over the upload and the scaling, then
      `FilterErrorAndThrow`: both run, and the upload's rejection is thrown
      in preference to the scaling's `{error}`. */
  method UploadAndScale(blobs: BlobStore, images: ImageDeriver, content: Option<string>,
                        path: Option<string>, image: Option<ImageUpload>, spec: map<string, ResSpec>,
                        salt: string, imageSalt: string -> string)
    returns (r: Result<(Option<string>, Option<map<string, string>>)>)
    modifies blobs, images
    ensures blobs.failing == old(blobs.failing) && images.fault == old(images.fault)
    ensures UploadFails(blobs, content) ==> r == Fail(Error(422, Messages.HdfsWriteFailed))
    ensures !UploadFails(blobs, content) && ScalingFails(images, image) ==>
              r == Fail(Error(404, images.fault.value))
    ensures !UploadFails(blobs, content) && !ScalingFails(images, image) ==>
              r == Ok((UploadedPath(content, path, salt), ScaledOf(image, spec, imageSalt)))
    ensures blobs.files == if Truthy(content) && !blobs.failing
                           then old(blobs.files)[BlobStore.ContentPath(path, salt) := content.value]
                           else old(blobs.files)
    ensures images.written == if ScaledOf(image, spec, imageSalt).Some? && images.fault.None?
                              then old(images.written) + ScaledOf(image, spec, imageSalt).value.Values
                              else old(images.written)
  {
    var uploaded := blobs.UploadContent(content, path, salt);
    var args := ImageArgs(image);
    var scaled := images.ScaleMultipleImages(Some(args.0), Some(args.1), spec, imageSalt);
    if uploaded.Fail? {
      return Fail(uploaded.error);
    }
    if scaled.Fail? {
      return Fail(scaled.error);
    }
    r := Ok((uploaded.value, scaled.value));
  }

  // ------------------------------------------------ the stored body

  /** `ArrayToObj`: every listed filter name set to true. */
  function FilterFlags(names: seq<string>): (flags: map<string, bool>)
    ensures forall n :: n in flags <==> n in names
    ensures forall n :: n in flags ==> flags[n]
  {
    map n | n in names :: true
  }

  /** The keys the controller writes itself. */
  const ControllerKeys: set<string> := {"reference", "filters", "imageData", "contentPath"}

  /** `p` and `q` agree on key `k`. */
  predicate SameAt(p: Patch, q: Patch, k: string) {
    (k in p <==> k in q) && (k in p ==> p[k] == q[k])
  }

  /** The validated body as the store receives it: `reference` is the given
      one (or left out), `filters` becomes its flag bag, a truthy upload path
      replaces `contentPath`, and the scaled paths replace `imageData`; an
      image that was not scaled stays as the upload object, which the image
      sub-schema reduces to no paths. `content` and `tagList` are not schema
      keys and never reach the store. */
  function ArticleData(body: ArticleBody, reference: Option<Value>, uploaded: Option<string>,
                       scaled: Option<map<string, string>>): (p: Patch)
    ensures forall k :: k !in ControllerKeys ==> SameAt(p, body.fields, k)
    ensures ("reference" in p <==> reference.Some?) && (reference.Some? ==> p["reference"] == reference.value)
    ensures body.filters.Some? ==> "filters" in p && p["filters"] == VFlags(FilterFlags(body.filters.value))
    ensures body.filters.None? ==> SameAt(p, body.fields, "filters")
    ensures Truthy(uploaded) ==> "contentPath" in p && p["contentPath"] == VStr(uploaded.value)
    ensures !Truthy(uploaded) ==> SameAt(p, body.fields, "contentPath")
    ensures scaled.Some? ==> "imageData" in p && p["imageData"] == VPaths(scaled.value)
    ensures scaled.None? && body.image.Some? ==> "imageData" in p && p["imageData"] == VPaths(map[])
    ensures scaled.None? && body.image.None? ==> SameAt(p, body.fields, "imageData")
  {
    var withReference := if reference.Some? then body.fields["reference" := reference.value]
                         else body.fields - {"reference"};
    var withFilters := if body.filters.Some?
                       then withReference["filters" := VFlags(FilterFlags(body.filters.value))]
                       else withReference;
    var withUpload := if body.image.Some? then withFilters["imageData" := VPaths(map[])] else withFilters;
    var withPath := if Truthy(uploaded) then withUpload["contentPath" := VStr(uploaded.value)] else withUpload;
    if scaled.Some? then withPath["imageData" := VPaths(scaled.value)] else withPath
  }

  // ------------------------------------------------------------- tags

  /** `tags.map(tag => tag.name)`. */
  function TagNames(refs: seq<TagRef>): (names: seq<string>)
    ensures |names| == |refs|
    ensures forall i :: 0 <= i < |refs| ==> names[i] == refs[i].name
  {
    seq(|refs|, i requires 0 <= i < |refs| => refs[i].name)
  }

  lemma NamesIn(refs: seq<TagRef>, n: string)
    ensures n in TagNames(refs) <==> exists t :: t in refs && t.name == n
  {
    var names := TagNames(refs);
    if n in names {
      var i :| 0 <= i < |names| && names[i] == n;
      assert refs[i] in refs;
    }
    if exists t :: t in refs && t.name == n {
      var t :| t in refs && t.name == n;
      var i :| 0 <= i < |refs| && refs[i] == t;
      assert names[i] == n;
    }
  }

  /** An article's `tags`; a missing list reads as empty. */
  function TagsOf(d: Doc): seq<TagRef> {
    if "tags" in d.fields && d.fields["tags"].VTags? then d.fields["tags"].tags else []
  }

  /** `xs.filter(x => !ys.has(x))`. */
  function NotIn(xs: seq<string>, ys: seq<string>): (r: seq<string>)
    ensures forall x :: x in r <==> x in xs && x !in ys
    ensures NoDuplicates(xs) ==> NoDuplicates(r)
    ensures (forall x :: x in xs ==> x !in ys) ==> r == xs
  {
    if xs == [] then []
    else
      var rest := NotIn(xs[1..], ys);
      if xs[0] in ys then rest
      else
        assert NoDuplicates(xs) ==> xs[0] !in xs[1..];
        [xs[0]] + rest
  }

  /** `refs.filter(tag => !removed.includes(tag.name))`, order kept. */
  function WithoutNames(refs: seq<TagRef>, removed: seq<string>): (r: seq<TagRef>)
    ensures forall t :: t in r <==> t in refs && t.name !in removed
    ensures |r| <= |refs|
    ensures (forall t :: t in refs ==> t.name !in removed) ==> r == refs
  {
    if refs == [] then []
    else (if refs[0].name in removed then [] else [refs[0]]) + WithoutNames(refs[1..], removed)
  }

  /** The names of the stored tags missing from the new list, each once. */
  function RemovedNames(existing: seq<TagRef>, tagList: seq<string>): seq<string> {
    NotIn(Dedup(TagNames(existing)), tagList)
  }

  /** The names of the new list missing from the stored tags, each once, in
      the order of their first occurrence. */
  function AddedNames(existing: seq<TagRef>, tagList: seq<string>): seq<string> {
    NotIn(Dedup(tagList), TagNames(existing))
  }

  /** The stored tags that stay: the removed names are filtered out when
      there are any. */
  function KeptTags(existing: seq<TagRef>, tagList: seq<string>): seq<TagRef> {
    var removed := RemovedNames(existing, tagList);
    if |removed| > 0 then WithoutNames(existing, removed) else existing
  }

  /** The diff: a name is removed exactly when it is stored and not
      requested, added exactly when it is requested and not stored, neither
      list repeats a name, and a stored tag stays exactly when its name is
      requested. */
  lemma TagDiff(existing: seq<TagRef>, tagList: seq<string>)
    ensures forall n :: n in RemovedNames(existing, tagList) <==> n in TagNames(existing) && n !in tagList
    ensures forall n :: n in AddedNames(existing, tagList) <==> n in tagList && n !in TagNames(existing)
    ensures NoDuplicates(RemovedNames(existing, tagList)) && NoDuplicates(AddedNames(existing, tagList))
    ensures forall t :: t in KeptTags(existing, tagList) <==> t in existing && t.name in tagList
  {
    var removed := RemovedNames(existing, tagList);
    forall t | t in existing ensures t.name in TagNames(existing) {
      NamesIn(existing, t.name);
    }
  }

  /** The final list (kept tags, then one entry per added name) names
      exactly the requested tags. */
  lemma FinalTagNames(existing: seq<TagRef>, tagList: seq<string>, added: seq<TagRef>)
    requires TagNames(added) == AddedNames(existing, tagList)
    ensures forall n :: n in TagNames(KeptTags(existing, tagList) + added) <==> n in tagList
  {
    var kept := KeptTags(existing, tagList);
    var final := kept + added;
    TagDiff(existing, tagList);
    forall n ensures n in TagNames(final) <==> n in tagList {
      NamesIn(final, n);
      NamesIn(existing, n);
      NamesIn(added, n);
      if n in tagList && n !in TagNames(existing) {
        assert n in TagNames(added);
        var t :| t in added && t.name == n;
        assert t in final;
      }
      if n in tagList && n in TagNames(existing) {
        var t :| t in existing && t.name == n;
        assert t in kept;
        assert t in final;
      }
    }
  }

  /** `Promise.all` over `createOrUpdateTags` for each name in turn, then
      `{name: tag.name, id: tag.id}` of each resulting tag: one entry per
      name, in order, each pointing at a tag stored under that name that now
      lists the article. Tags named otherwise are untouched. */
  method CreateTagRefs(tags: Collection, articleId: Id, names: seq<string>) returns (refs: seq<TagRef>)
    requires tags.Valid() && "name" in tags.schema && "articles" in tags.schema
    modifies tags
    ensures tags.Valid()
    ensures TagNames(refs) == names
    ensures TagService.RegisteredAll(tags.docs, refs, articleId)
    ensures TagService.Grows(old(tags.docs), tags.docs)
    ensures TagService.UntouchedExcept(old(tags.docs), tags.docs, names)
  {
    refs := [];
    for i := 0 to |names|
      invariant tags.Valid()
      invariant TagNames(refs) == names[..i]
      invariant TagService.RegisteredAll(tags.docs, refs, articleId)
      invariant TagService.Grows(old(tags.docs), tags.docs)
      invariant TagService.UntouchedExcept(old(tags.docs), tags.docs, names)
    {
      var ref := RegisterOne(tags, articleId, names[i], old(tags.docs), refs, names);
      assert names[..i + 1] == names[..i] + [names[i]];
      refs := refs + [ref];
    }
  }

  /** One `createOrUpdateTags` of the loop above, and the `{name, id}` of the
      tag it returns. */
  method RegisterOne(tags: Collection, articleId: Id, name: string, ghost start: seq<Doc>,
                     ghost refs: seq<TagRef>, ghost names: seq<string>) returns (ref: TagRef)
    requires tags.Valid() && "name" in tags.schema && "articles" in tags.schema && name in names
    requires TagService.Grows(start, tags.docs) && TagService.UntouchedExcept(start, tags.docs, names)
    requires TagService.RegisteredAll(tags.docs, refs, articleId)
    modifies tags
    ensures tags.Valid() && ref.name == name
    ensures TagService.RegisteredAll(tags.docs, refs + [ref], articleId)
    ensures TagService.Grows(start, tags.docs) && TagService.UntouchedExcept(start, tags.docs, names)
  {
    ghost var before := tags.docs;
    var r := TagService.CreateOrUpdateTags(tags, articleId, name);
    var tag := r.value.body.doc;
    RegisteredStep(start, before, tags.docs, refs, tag, name, names, articleId);
    ref := TagRef(name, tag.id);
  }

  /** One more registration keeps the earlier ones and adds the new tag's. */
  lemma RegisteredStep(start: seq<Doc>, before: seq<Doc>, after: seq<Doc>, refs: seq<TagRef>, tag: Doc,
                       name: string, names: seq<string>, articleId: Id)
    requires TagService.Grows(start, before) && TagService.UntouchedExcept(start, before, names)
    requires TagService.RegisteredAll(before, refs, articleId)
    requires TagService.Grows(before, after) && TagService.UntouchedExcept(before, after, [name])
    requires name in names && tag in after && TagService.Named(tag, name)
    requires articleId in TagService.ArticlesOf(tag)
    ensures TagService.RegisteredAll(after, refs + [TagRef(name, tag.id)], articleId)
    ensures TagService.Grows(start, after) && TagService.UntouchedExcept(start, after, names)
  {
    var all := refs + [TagRef(name, tag.id)];
    forall k | 0 <= k < |all| ensures TagService.Registered(after, all[k], articleId) {
      if k < |refs| {
        TagService.RegisteredGrows(before, after, refs[k], articleId);
      } else {
        var j :| 0 <= j < |after| && after[j] == tag;
      }
    }
    TagService.GrowsTransitive(start, before, after);
    forall k | 0 <= k < |start| && !TagService.NamedIn(start[k], names) ensures after[k] == start[k] {
      assert !TagService.Named(before[k], name);
    }
  }

  /** `findAndRemoveTags` for each name in turn. */
  method RemoveTags(tags: Collection, articleId: Id, names: seq<string>)
    requires tags.Valid()
    modifies tags
    ensures tags.Valid() && tags.nextId == old(tags.nextId)
    ensures tags.docs == TagService.UnregisteredAll(old(tags.docs), articleId, names, tags.schema)
  {
    for i := 0 to |names|
      invariant tags.Valid() && tags.nextId == old(tags.nextId)
      invariant tags.docs == TagService.UnregisteredAll(old(tags.docs), articleId, names[..i], tags.schema)
    {
      TagService.FindAndRemoveTags(tags, articleId, names[i]);
      assert names[..i + 1][..i] == names[..i];
    }
    assert names[..|names|] == names;
  }

  /** The tag block of `update`: the added names are registered, the removed
      ones unregistered, and the article's new list is the kept tags followed
      by one entry per added name; it names exactly the requested tags. Each
      added entry points at a tag under its name that lists the article; the
      first active tag of each removed name has the article spliced out of
      its `articles`; tags of other names are untouched. */
  method UpdateTags(tags: Collection, articleId: Id, existing: seq<TagRef>, tagList: seq<string>)
    returns (final: seq<TagRef>)
    requires tags.Valid() && "name" in tags.schema && "articles" in tags.schema
    modifies tags
    ensures tags.Valid()
    ensures |final| >= |KeptTags(existing, tagList)|
    ensures final[..|KeptTags(existing, tagList)|] == KeptTags(existing, tagList)
    ensures TagNames(final[|KeptTags(existing, tagList)|..]) == AddedNames(existing, tagList)
    ensures forall n :: n in TagNames(final) <==> n in tagList
    ensures TagService.RegisteredAll(tags.docs, final[|KeptTags(existing, tagList)|..], articleId)
    ensures TagService.FirstUnlisted(old(tags.docs), tags.docs, articleId, RemovedNames(existing, tagList),
                                     tags.schema)
    ensures TagService.UntouchedExcept(old(tags.docs), tags.docs,
                                       AddedNames(existing, tagList) + RemovedNames(existing, tagList))
  {
    var removed := RemovedNames(existing, tagList);
    var kept := if |removed| > 0 then WithoutNames(existing, removed) else existing;
    var added := AddedNames(existing, tagList);
    var refs := CreateTagRefs(tags, articleId, added);
    ghost var mid := tags.docs;
    RemoveTags(tags, articleId, removed);
    final := kept + refs;
    FinalTagNames(existing, tagList, refs);
    assert final[|kept|..] == refs;
    TagDiff(existing, tagList);
    SyncedTags(old(tags.docs), mid, tags.docs, articleId, refs, added, removed, tags.schema);
  }

  /** Registration of `added`, then removal of `removed`, two name lists
      with nothing in common, keeps the registrations and unlists the first
      active tag of each removed name as it was before either step. */
  lemma SyncedTags(before: seq<Doc>, mid: seq<Doc>, after: seq<Doc>, articleId: Id, refs: seq<TagRef>,
                   added: seq<string>, removed: seq<string>, schema: set<string>)
    requires TagService.Grows(before, mid) && TagService.UntouchedExcept(before, mid, added)
    requires TagService.RegisteredAll(mid, refs, articleId) && TagNames(refs) == added
    requires after == TagService.UnregisteredAll(mid, articleId, removed, schema)
    requires NoDuplicates(removed) && forall n :: n in removed ==> n !in added
    ensures TagService.RegisteredAll(after, refs, articleId)
    ensures TagService.FirstUnlisted(before, after, articleId, removed, schema)
    ensures TagService.UntouchedExcept(before, after, added + removed)
  {
    forall k | 0 <= k < |refs| ensures TagService.Registered(after, refs[k], articleId) {
      var i :| 0 <= i < |mid| && mid[i].id == refs[k].id && TagService.Named(mid[i], refs[k].name)
               && articleId in TagService.ArticlesOf(mid[i]);
      assert refs[k].name == TagNames(refs)[k];
      assert !TagService.NamedIn(mid[i], removed);
      assert after[i] == mid[i];
    }
    forall n | n in removed && FirstIndex(before, TagService.ByName(n)).Some?
      ensures after[FirstIndex(before, TagService.ByName(n)).value]
              == TagService.Unlisted(before[FirstIndex(before, TagService.ByName(n)).value], articleId, schema)
    {
      var i := FirstIndex(before, TagService.ByName(n)).value;
      TagService.MatchesByName(before[i], n);
      assert !TagService.NamedIn(before[i], added);
      assert mid[i] == before[i];
      TagService.FirstByNameStable(before, mid, n);
      TagService.UnregisteredAllFirst(mid, articleId, removed, schema, n);
    }
    forall i | 0 <= i < |before| && !TagService.NamedIn(before[i], added + removed)
      ensures after[i] == before[i]
    {
      assert !TagService.NamedIn(before[i], added) && !TagService.NamedIn(before[i], removed);
      assert !TagService.NamedIn(mid[i], removed);
    }
  }

  // --------------------------------------------------- image resolutions

  /** The stored `imageData` paths; none when the article has no images. */
  function ExistingPaths(d: Doc): map<string, string> {
    if "imageData" in d.fields && d.fields["imageData"].VPaths? then d.fields["imageData"].paths else map[]
  }

  /** The resolutions with every stored path reused: sizes are kept, and a
      type with a truthy stored path takes that path as its `imagePath`. */
  function MergedSpec(spec: map<string, ResSpec>, existing: map<string, string>): (r: map<string, ResSpec>)
    ensures r.Keys == spec.Keys
    ensures forall t :: t in r ==> r[t].height == spec[t].height && r[t].width == spec[t].width
    ensures forall t :: t in r && t in existing && existing[t] != "" ==> r[t].imagePath == Some(existing[t])
    ensures forall t :: t in r && !(t in existing && existing[t] != "") ==> r[t] == spec[t]
  {
    map t | t in spec :: if t in existing && existing[t] != "" then spec[t].(imagePath := Some(existing[t])) else spec[t]
  }

  /** The `forEach` over the resolution types of `update`. */
  method MergeImagePaths(spec: map<string, ResSpec>, existing: map<string, string>)
    returns (r: map<string, ResSpec>)
    ensures r == MergedSpec(spec, existing)
  {
    r := spec;
    var todo := spec.Keys;
    while todo != {}
      invariant todo <= spec.Keys && r.Keys == spec.Keys
      invariant forall t :: t in todo ==> r[t] == spec[t]
      invariant forall t :: t in spec && t !in todo ==> r[t] == MergedSpec(spec, existing)[t]
      decreases todo
    {
      var t :| t in todo;
      if t in existing && existing[t] != "" {
        r := r[t := r[t].(imagePath := Some(existing[t]))];
      }
      todo := todo - {t};
    }
  }

  /** An update writes every resolution that already has a stored path back
      to that path. */
  lemma ReusesStoredImagePaths(spec: map<string, ResSpec>, d: Doc, ext: string, imageSalt: string -> string)
    ensures var paths := ImageDeriver.ScaledPaths(MergedSpec(spec, ExistingPaths(d)), ext, imageSalt);
            forall t :: t in spec && t in ExistingPaths(d) && ExistingPaths(d)[t] != "" ==>
              t in paths && paths[t] == ExistingPaths(d)[t]
  {
  }

  // ------------------------------------------------------ create / update

  /** The store after `removeFeaturedArticles(cur)`. */
  function Cleaned(docs: seq<Doc>, cur: Doc): (r: seq<Doc>)
    ensures |r| == |docs|
    ensures forall i :: 0 <= i < |docs| ==> r[i].id == docs[i].id
  {
    if FeaturedAndApproved(cur) then UpdateAll(docs, FeaturedFilter(cur), map[], {FeaturedPath}) else docs
  }

  /** The cleanup never touches the current article itself. */
  lemma CleanedSnoc(docs: seq<Doc>, cur: Doc)
    ensures Cleaned(docs + [cur], cur) == Cleaned(docs, cur) + [cur]
  {
    MatchesFeatured(cur, cur);
  }

  /** After the cleanup, no article competing with `cur` is featured. */
  lemma CleanedLeavesOneFeatured(docs: seq<Doc>, cur: Doc)
    requires FeaturedAndApproved(cur)
    ensures forall d :: d in Cleaned(docs, cur) && Competes(d, cur) ==> Get(d, FeaturedPath) != Some(VBool(true))
  {
    FeaturedCleanup(docs, cur);
  }

  /** Saving the last row replaces only it when no other row shares its id. */
  lemma ReplaceLast(docs: seq<Doc>, last: Doc, saved: Doc)
    requires saved.id == last.id
    requires forall i :: 0 <= i < |docs| ==> docs[i].id != last.id
    ensures Replace(docs + [last], saved) == docs + [saved]
  {
  }

  /** The tag block of `create`: every name is registered, then the new
      article, the store's last row, is saved with one `{name, id}` entry per
      name. */
  method AttachTags(articles: Collection, tags: Collection, doc: Doc, names: seq<string>)
    returns (saved: Doc)
    requires articles.Valid() && tags.Valid() && articles != tags
    requires "name" in tags.schema && "articles" in tags.schema && "tags" in articles.schema
    requires |articles.docs| > 0 && articles.docs[|articles.docs| - 1] == doc
    modifies articles, tags
    ensures articles.Valid() && tags.Valid() && articles.nextId == old(articles.nextId)
    ensures articles.docs == old(articles.docs)[..|old(articles.docs)| - 1] + [saved]
    ensures saved == Assign(doc, map["tags" := VTags(TagsOf(saved))], articles.schema)
    ensures TagNames(TagsOf(saved)) == names
    ensures TagService.RegisteredAll(tags.docs, TagsOf(saved), doc.id)
    ensures TagService.Grows(old(tags.docs), tags.docs) && TagService.UntouchedExcept(old(tags.docs), tags.docs, names)
  {
    ghost var rest := articles.docs[..|articles.docs| - 1];
    assert articles.docs == rest + [doc];
    var refs := CreateTagRefs(tags, doc.id, names);
    saved := Assign(doc, map["tags" := VTags(refs)], articles.schema);
    ReplaceLast(rest, doc, saved);
    var _ := articles.UpdateExisting(doc, Some(map["tags" := VTags(refs)]), false);
    assert TagsOf(saved) == refs;
  }

  /** The store write of `create`: the article is inserted, competing
      featured articles lose their flag, and with a tag list the tags are
      attached. */
  method StoreArticle(articles: Collection, tags: Collection, data: Patch, tagList: Option<seq<string>>)
    returns (r: Result<Reply>)
    requires articles.Valid() && tags.Valid() && articles != tags
    requires "tags" in articles.schema && "name" in tags.schema && "articles" in tags.schema
    modifies articles, tags
    ensures articles.Valid() && tags.Valid()
    ensures tagList.None? ==> tags.docs == old(tags.docs)
    ensures var created := articles.NewDoc(old(articles.nextId), data);
            var n := |old(articles.docs)|;
            |articles.docs| == n + 1 && articles.nextId == old(articles.nextId) + 1
            && articles.docs[..n] == Cleaned(old(articles.docs), created)
            && r == Ok(Formatted(201, One(articles.docs[n]), Messages.Created, None))
            && (tagList.None? ==> articles.docs[n] == created)
            && (tagList.Some? ==>
                  articles.docs[n] == Assign(created, map["tags" := VTags(TagsOf(articles.docs[n]))],
                                             articles.schema)
                  && TagNames(TagsOf(articles.docs[n])) == Dedup(tagList.value)
                  && TagService.RegisteredAll(tags.docs, TagsOf(articles.docs[n]), created.id)
                  && TagService.Grows(old(tags.docs), tags.docs)
                  && TagService.UntouchedExcept(old(tags.docs), tags.docs, Dedup(tagList.value)))
            && (FeaturedAndApproved(created) ==>
                  forall d :: d in articles.docs && Competes(d, created) ==> Get(d, FeaturedPath) != Some(VBool(true)))
  {
    ghost var before := articles.docs;
    var formatted := articles.Create(data, true);
    var created := Payload(formatted).doc;
    CleanedSnoc(before, created);
    RemoveFeaturedArticles(articles, created);
    ghost var cleaned := Cleaned(before, created);
    assert articles.docs == cleaned + [created];
    if FeaturedAndApproved(created) {
      CleanedLeavesOneFeatured(before, created);
    }
    if tagList.Some? {
      var saved := AttachTags(articles, tags, created, Dedup(tagList.value));
      assert articles.docs == cleaned + [saved];
      r := Ok(Formatted(201, One(saved), Messages.Created, None));
    } else {
      r := Ok(formatted);
    }
  }

  /** The store write of `update`: the article is saved with the data, then
      competing featured articles lose their flag. */
  method SaveArticle(articles: Collection, doc: Doc, data: Patch) returns (r: Result<Reply>)
    requires articles.Valid() && HasId(articles.docs, doc.id)
    modifies articles
    ensures articles.Valid() && articles.nextId == old(articles.nextId)
    ensures var saved := Assign(doc, data, articles.schema);
            r == Ok(Formatted(200, One(saved), Messages.Updated, None))
            && articles.docs == Cleaned(Replace(old(articles.docs), saved), saved)
            && (FeaturedAndApproved(saved) ==>
                  forall d :: d in articles.docs && Competes(d, saved) ==> Get(d, FeaturedPath) != Some(VBool(true)))
  {
    r := articles.UpdateExisting(doc, Some(data), true);
    var saved := Assign(doc, data, articles.schema);
    ghost var replaced := articles.docs;
    RemoveFeaturedArticles(articles, saved);
    if FeaturedAndApproved(saved) {
      CleanedLeavesOneFeatured(replaced, saved);
    }
  }

  /** An active article holds the reference. */
  predicate Duplicated(articles: Collection, reference: Reference)
    reads articles
  {
    exists d :: d in articles.docs && HoldsReference(d, reference, None)
  }

  /** The data `create` stores. */
  function CreateData(body: ArticleBody, reference: Reference, resolutions: map<string, ResSpec>,
                      salt: string, imageSalt: string -> string): Patch
  {
    ArticleData(body, Some(VRef(reference)), UploadedPath(body.content, None, salt),
                ScaledOf(body.image, resolutions, imageSalt))
  }

  /** `create`: a reference already held by an active article gives the 409
      error before anything else happens. Otherwise the content is uploaded
      and the image scaled; a failure of either is thrown and nothing is
      stored. Otherwise the article is stored, competing featured articles
      lose their flag, and, with a tag list, every distinct tag name is
      registered and the article saved with the list of `{name, id}` entries.
      The response is 201 with the stored article. */
  method Create(articles: Collection, tags: Collection, blobs: BlobStore, images: ImageDeriver,
                reference: Reference, body: ArticleBody, resolutions: map<string, ResSpec>,
                salt: string, imageSalt: string -> string) returns (r: Result<Reply>)
    requires articles.Valid() && tags.Valid() && articles != tags
    requires articles.schema == Schemas.ArticleKeys && "name" in tags.schema && "articles" in tags.schema
    modifies articles, tags, blobs, images
    ensures articles.Valid() && tags.Valid()
    ensures old(Duplicated(articles, reference)) ==>
              r.Fail? && r.error.status == 409 && r.error.message == Messages.AlreadyExist
              && unchanged(articles, tags, blobs, images)
    ensures !old(Duplicated(articles, reference)) && UploadFails(blobs, body.content) ==>
              r == Fail(Error(422, Messages.HdfsWriteFailed)) && unchanged(articles, tags)
    ensures !old(Duplicated(articles, reference)) && !UploadFails(blobs, body.content)
            && ScalingFails(images, body.image) ==>
              r == Fail(Error(404, images.fault.value)) && unchanged(articles, tags)
    ensures !old(Duplicated(articles, reference)) && !UploadFails(blobs, body.content)
            && !ScalingFails(images, body.image) ==>
              var created := articles.NewDoc(old(articles.nextId),
                                             CreateData(body, reference, resolutions, salt, imageSalt));
              var n := |old(articles.docs)|;
              |articles.docs| == n + 1 && articles.nextId == old(articles.nextId) + 1
              && articles.docs[..n] == Cleaned(old(articles.docs), created)
              && r == Ok(Formatted(201, One(articles.docs[n]), Messages.Created, None))
              && (body.tagList.None? ==> articles.docs[n] == created)
              && (body.tagList.Some? ==>
                    articles.docs[n] == Assign(created, map["tags" := VTags(TagsOf(articles.docs[n]))],
                                               articles.schema)
                    && TagNames(TagsOf(articles.docs[n])) == Dedup(body.tagList.value)
                    && TagService.RegisteredAll(tags.docs, TagsOf(articles.docs[n]), created.id)
                    && TagService.Grows(old(tags.docs), tags.docs)
                    && TagService.UntouchedExcept(old(tags.docs), tags.docs, Dedup(body.tagList.value)))
              && (body.tagList.None? ==> tags.docs == old(tags.docs))
              && (FeaturedAndApproved(created) ==>
                    forall d :: d in articles.docs && Competes(d, created) ==> Get(d, FeaturedPath) != Some(VBool(true)))
    ensures !old(Duplicated(articles, reference)) ==>
              blobs.files == if Truthy(body.content) && !blobs.failing
                             then old(blobs.files)[BlobStore.ContentPath(None, salt) := body.content.value]
                             else old(blobs.files)
    ensures !old(Duplicated(articles, reference)) ==>
              var scaled := ScaledOf(body.image, resolutions, imageSalt);
              images.written == if scaled.Some? && images.fault.None?
                                then old(images.written) + scaled.value.Values
                                else old(images.written)
  {
    var duplicate := articles.CheckDuplicate(reference, None, Some("body,reference"), true);
    if duplicate.Fail? {
      return Fail(duplicate.error);
    }
    var effects := UploadAndScale(blobs, images, body.content, None, body.image, resolutions, salt, imageSalt);
    if effects.Fail? {
      return Fail(effects.error);
    }
    var data := ArticleData(body, Some(VRef(reference)), effects.value.0, effects.value.1);
    r := StoreArticle(articles, tags, data, body.tagList);
  }

  /** The data `update` stores for the stored article `doc`, before its tag
      list: the stored reference is written back, the content goes to the
      stored path and the images to the stored image paths. */
  function UpdateData(body: ArticleBody, doc: Doc, resolutions: map<string, ResSpec>,
                      salt: string, imageSalt: string -> string): Patch
  {
    ArticleData(body, Get(doc, Top("reference")),
                UploadedPath(body.content, StoredString(doc, "contentPath"), salt),
                ScaledOf(body.image, MergedSpec(resolutions, ExistingPaths(doc)), imageSalt))
  }

  /** An update never changes an article's reference, with or without a new
      tag list. */
  lemma UpdateKeepsReference(body: ArticleBody, doc: Doc, resolutions: map<string, ResSpec>,
                             salt: string, imageSalt: string -> string, refs: seq<TagRef>)
    ensures var data := UpdateData(body, doc, resolutions, salt, imageSalt);
            Get(Assign(doc, data, Schemas.ArticleKeys), Top("reference")) == Get(doc, Top("reference"))
            && Get(Assign(doc, data["tags" := VTags(refs)], Schemas.ArticleKeys), Top("reference"))
               == Get(doc, Top("reference"))
  {
  }

  /** Updating the content of an article that has a content path rewrites
      that file and keeps the path. */
  lemma UpdateKeepsContentPath(body: ArticleBody, doc: Doc, resolutions: map<string, ResSpec>,
                               salt: string, imageSalt: string -> string)
    requires Truthy(StoredString(doc, "contentPath")) && Truthy(body.content)
    ensures UploadedPath(body.content, StoredString(doc, "contentPath"), salt) == StoredString(doc, "contentPath")
    ensures var data := UpdateData(body, doc, resolutions, salt, imageSalt);
            Get(Assign(doc, data, Schemas.ArticleKeys), Top("contentPath")) == Get(doc, Top("contentPath"))
  {
  }

  /** `update`: an unknown id gives the 404 error and nothing happens. The
      content is uploaded to the stored path and the image scaled to the
      stored image paths; a failure of either is thrown and the article and
      the tags are left as they were. Otherwise, with a tag list, the tags
      are diffed against the stored ones; the article is saved with the body
      (its reference forced back to the stored one) and competing featured
      articles lose their flag. The response is 200 with the saved article. */
  method Update(articles: Collection, tags: Collection, blobs: BlobStore, images: ImageDeriver,
                id: Id, body: ArticleBody, resolutions: map<string, ResSpec>,
                salt: string, imageSalt: string -> string) returns (r: Result<Reply>)
    requires articles.Valid() && tags.Valid() && articles != tags
    requires articles.schema == Schemas.ArticleKeys && "name" in tags.schema && "articles" in tags.schema
    modifies articles, tags, blobs, images
    ensures articles.Valid() && tags.Valid() && articles.nextId == old(articles.nextId)
    ensures old(articles.FindOne(ById(id))).None? ==>
              r == Fail(NotFoundError(None)) && unchanged(articles, tags, blobs, images)
    ensures old(articles.FindOne(ById(id))).Some? && UploadFails(blobs, body.content) ==>
              r == Fail(Error(422, Messages.HdfsWriteFailed)) && unchanged(articles, tags)
    ensures old(articles.FindOne(ById(id))).Some? && !UploadFails(blobs, body.content)
            && ScalingFails(images, body.image) ==>
              r == Fail(Error(404, images.fault.value)) && unchanged(articles, tags)
    ensures old(articles.FindOne(ById(id))).Some? && !UploadFails(blobs, body.content)
            && !ScalingFails(images, body.image) ==>
              var doc := old(articles.FindOne(ById(id))).value;
              var data := UpdateData(body, doc, resolutions, salt, imageSalt);
              r.Ok? && r.value.Formatted? && r.value.data.One?
              && r.value == Formatted(200, r.value.data, Messages.Updated, None)
              && var saved := r.value.data.doc;
              saved.id == id
              && articles.docs == Cleaned(Replace(old(articles.docs), saved), saved)
              && (body.tagList.None? ==> saved == Assign(doc, data, articles.schema))
              && (body.tagList.Some? ==>
                    var kept := KeptTags(TagsOf(doc), body.tagList.value);
                    saved == Assign(doc, data["tags" := VTags(TagsOf(saved))], articles.schema)
                    && |TagsOf(saved)| >= |kept| && TagsOf(saved)[..|kept|] == kept
                    && TagNames(TagsOf(saved)[|kept|..]) == AddedNames(TagsOf(doc), body.tagList.value)
                    && (forall n :: n in TagNames(TagsOf(saved)) <==> n in body.tagList.value)
                    && TagService.RegisteredAll(tags.docs, TagsOf(saved)[|kept|..], id)
                    && TagService.FirstUnlisted(old(tags.docs), tags.docs, id,
                                                RemovedNames(TagsOf(doc), body.tagList.value), tags.schema)
                    && TagService.UntouchedExcept(old(tags.docs), tags.docs,
                                                  AddedNames(TagsOf(doc), body.tagList.value)
                                                  + RemovedNames(TagsOf(doc), body.tagList.value)))
              && (body.tagList.None? ==> tags.docs == old(tags.docs))
              && (FeaturedAndApproved(saved) ==>
                    forall d :: d in articles.docs && Competes(d, saved) ==> Get(d, FeaturedPath) != Some(VBool(true)))
    ensures old(articles.FindOne(ById(id))).Some? ==>
              var doc := old(articles.FindOne(ById(id))).value;
              blobs.files == if Truthy(body.content) && !blobs.failing
                             then old(blobs.files)[BlobStore.ContentPath(StoredString(doc, "contentPath"), salt)
                                                   := body.content.value]
                             else old(blobs.files)
    ensures old(articles.FindOne(ById(id))).Some? ==>
              var doc := old(articles.FindOne(ById(id))).value;
              var scaled := ScaledOf(body.image, MergedSpec(resolutions, ExistingPaths(doc)), imageSalt);
              images.written == if scaled.Some? && images.fault.None?
                                then old(images.written) + scaled.value.Values
                                else old(images.written)
  {
    var found := articles.FindById(id, None, false);
    if found.Fail? {
      return Fail(found.error);
    }
    var doc := Payload(found.value).doc;
    var spec := MergeImagePaths(resolutions, ExistingPaths(doc));
    var effects := UploadAndScale(blobs, images, body.content, StoredString(doc, "contentPath"), body.image,
                                  spec, salt, imageSalt);
    if effects.Fail? {
      return Fail(effects.error);
    }
    var data := ArticleData(body, Get(doc, Top("reference")), effects.value.0, effects.value.1);
    assert HasId(articles.docs, doc.id) by {
      var i :| 0 <= i < |articles.docs| && articles.docs[i] == doc;
    }
    r := WriteUpdate(articles, tags, doc, data, body.tagList);
  }

  /** The store write of `update` once the effects succeeded: with a tag
      list the tags are diffed and the new list joins the data; then the
      article is saved and competing featured articles lose their flag. */
  method WriteUpdate(articles: Collection, tags: Collection, doc: Doc, data: Patch,
                     tagList: Option<seq<string>>) returns (r: Result<Reply>)
    requires articles.Valid() && tags.Valid() && articles != tags
    requires "name" in tags.schema && "articles" in tags.schema && "tags" in articles.schema
    requires HasId(articles.docs, doc.id)
    modifies articles, tags
    ensures articles.Valid() && tags.Valid() && articles.nextId == old(articles.nextId)
    ensures r.Ok? && r.value.Formatted? && r.value.data.One?
            && r.value == Formatted(200, r.value.data, Messages.Updated, None)
            && var saved := r.value.data.doc;
            saved.id == doc.id
            && articles.docs == Cleaned(Replace(old(articles.docs), saved), saved)
            && (tagList.None? ==> saved == Assign(doc, data, articles.schema))
            && (tagList.Some? ==>
                  var kept := KeptTags(TagsOf(doc), tagList.value);
                  saved == Assign(doc, data["tags" := VTags(TagsOf(saved))], articles.schema)
                  && |TagsOf(saved)| >= |kept| && TagsOf(saved)[..|kept|] == kept
                  && TagNames(TagsOf(saved)[|kept|..]) == AddedNames(TagsOf(doc), tagList.value)
                  && (forall n :: n in TagNames(TagsOf(saved)) <==> n in tagList.value)
                  && TagService.RegisteredAll(tags.docs, TagsOf(saved)[|kept|..], doc.id)
                  && TagService.FirstUnlisted(old(tags.docs), tags.docs, doc.id,
                                              RemovedNames(TagsOf(doc), tagList.value), tags.schema)
                  && TagService.UntouchedExcept(old(tags.docs), tags.docs,
                                                AddedNames(TagsOf(doc), tagList.value)
                                                + RemovedNames(TagsOf(doc), tagList.value)))
            && (tagList.None? ==> tags.docs == old(tags.docs))
            && (FeaturedAndApproved(saved) ==>
                  forall d :: d in articles.docs && Competes(d, saved) ==> Get(d, FeaturedPath) != Some(VBool(true)))
  {
    var written := data;
    if tagList.Some? {
      var final := UpdateTags(tags, doc.id, TagsOf(doc), tagList.value);
      written := data["tags" := VTags(final)];
      assert TagsOf(Assign(doc, written, articles.schema)) == final;
    }
    r := SaveArticle(articles, doc, written);
  }

  // ------------------------------------------------- remove and bulk ops

  /** `remove`: the active article with the id is soft-deleted (200,
      "Deleted successfully."); an unknown id gives the 404 error. */
  method Remove(articles: Collection, id: Id) returns (r: Result<Reply>)
    requires articles.Valid() && articles.schema == Schemas.ArticleKeys
    modifies articles
    ensures articles.Valid() && articles.nextId == old(articles.nextId)
    ensures |articles.docs| == |old(articles.docs)|
    ensures r.Ok? <==> old(exists d :: d in articles.docs && d.id == id && IsActive(d))
    ensures r.Fail? ==> r.error.status == 404
    ensures r.Ok? ==> r.value == Formatted(200, NoBody, Messages.Deleted, None)
    ensures forall d :: d in articles.docs ==> !(d.id == id && IsActive(d))
    ensures articles.docs == UpdateAll(old(articles.docs), ById(id), map["status" := VStr("deleted")], {})
    ensures forall i :: 0 <= i < |articles.docs| ==>
              articles.docs[i] == if old(articles.docs)[i].id == id && IsActive(old(articles.docs)[i])
                                  then Doc(id, old(articles.docs)[i].fields["status" := VStr("deleted")])
                                  else old(articles.docs)[i]
  {
    ghost var before := articles.docs;
    assert Restrict(map["status" := VStr("deleted")], articles.schema) == map["status" := VStr("deleted")];
    r := articles.RemoveById(id, true);
    DeletedRow(before, id);
  }

  /** Soft-deleting by id: the active row with the id gets `status:
      "deleted"` and keeps every other field; the other rows are untouched. */
  lemma DeletedRow(before: seq<Doc>, id: Id)
    ensures var after := UpdateAll(before, ById(id), map["status" := VStr("deleted")], {});
            forall i :: 0 <= i < |before| ==>
              after[i] == if before[i].id == id && IsActive(before[i])
                          then Doc(id, before[i].fields["status" := VStr("deleted")])
                          else before[i]
  {
    var after := UpdateAll(before, ById(id), map["status" := VStr("deleted")], {});
    forall i | 0 <= i < |before|
      ensures after[i] == if before[i].id == id && IsActive(before[i])
                          then Doc(id, before[i].fields["status" := VStr("deleted")])
                          else before[i]
    {
      MatchesById(before[i], id);
      ApplyWithoutUnset(before[i], map["status" := VStr("deleted")]);
    }
  }

  /** `updateApprovalStatus`: every listed article, whatever its status,
      gets the approval status; the others are untouched. 404 when no id is
      stored, 422 when nothing changed, otherwise 200 "Updated successfully.". */
  method UpdateApprovalStatus(articles: Collection, ids: seq<Id>, approvalStatus: string)
    returns (r: Result<Reply>)
    requires articles.Valid() && articles.schema == Schemas.ArticleKeys
    modifies articles
    ensures articles.Valid() && articles.nextId == old(articles.nextId)
    ensures |articles.docs| == |old(articles.docs)|
    ensures forall i :: 0 <= i < |articles.docs| ==>
              if old(articles.docs)[i].id in ids
              then articles.docs[i] == Doc(old(articles.docs)[i].id,
                                           old(articles.docs)[i].fields["approvalStatus" := VStr(approvalStatus)])
              else articles.docs[i] == old(articles.docs)[i]
    ensures r.Fail? && r.error == NotFoundError(None) <==> forall d :: d in old(articles.docs) ==> d.id !in ids
    ensures r.Fail? && r.error == Error(422, Messages.UnableToUpdate) <==>
              (exists d :: d in old(articles.docs) && d.id in ids) && articles.docs == old(articles.docs)
    ensures r.Ok? ==> r.value == Formatted(200, NoBody, Messages.Updated, None)
  {
    var data := map["approvalStatus" := VStr(approvalStatus)];
    ghost var before := articles.docs;
    assert Restrict(data, articles.schema) == data;
    r := BulkUpdate(articles, ids, data, {}, true, None);
    SetByIds(before, ids, "approvalStatus", VStr(approvalStatus));
  }

  /** `updateMany` by ids with one `$set` key: exactly the listed rows get
      the value. */
  lemma SetByIds(before: seq<Doc>, ids: seq<Id>, key: string, v: Value)
    ensures var after := UpdateAll(before, IdsFilter(ids), map[key := v], {});
            forall i :: 0 <= i < |before| ==>
              after[i] == if before[i].id in ids then Doc(before[i].id, before[i].fields[key := v]) else before[i]
  {
    var after := UpdateAll(before, IdsFilter(ids), map[key := v], {});
    forall i | 0 <= i < |before|
      ensures after[i] == if before[i].id in ids then Doc(before[i].id, before[i].fields[key := v]) else before[i]
    {
      MatchesIds(before[i], ids);
      ApplyWithoutUnset(before[i], map[key := v]);
    }
  }

  /** After a bulk delete none of the listed articles is active. */
  lemma DeletedAreInactive(before: seq<Doc>, ids: seq<Id>)
    ensures var after := UpdateAll(before, IdsFilter(ids), map["status" := VStr("deleted")], {});
            forall d :: d in after && d.id in ids ==> !IsActive(d)
  {
    var after := UpdateAll(before, IdsFilter(ids), map["status" := VStr("deleted")], {});
    SetByIds(before, ids, "status", VStr("deleted"));
    forall d | d in after && d.id in ids ensures !IsActive(d) {
      var i :| 0 <= i < |after| && after[i] == d;
      assert Get(d, Top("status")) == Some(VStr("deleted"));
    }
  }

  /** `bulkDelete`: every listed article gets `status: "deleted"`, so none
      of them is active afterwards; the others are untouched. 404 when no
      id is stored, 422 when nothing changed, otherwise 200 "Deleted
      successfully.". */
  method BulkDelete(articles: Collection, ids: seq<Id>) returns (r: Result<Reply>)
    requires articles.Valid() && articles.schema == Schemas.ArticleKeys
    modifies articles
    ensures articles.Valid() && articles.nextId == old(articles.nextId)
    ensures |articles.docs| == |old(articles.docs)|
    ensures forall i :: 0 <= i < |articles.docs| ==>
              if old(articles.docs)[i].id in ids
              then articles.docs[i] == Doc(old(articles.docs)[i].id,
                                           old(articles.docs)[i].fields["status" := VStr("deleted")])
              else articles.docs[i] == old(articles.docs)[i]
    ensures forall d :: d in articles.docs && d.id in ids ==> !IsActive(d)
    ensures r.Fail? && r.error == NotFoundError(None) <==> forall d :: d in old(articles.docs) ==> d.id !in ids
    ensures r.Fail? && r.error == Error(422, Messages.UnableToUpdate) <==>
              (exists d :: d in old(articles.docs) && d.id in ids) && articles.docs == old(articles.docs)
    ensures r.Ok? ==> r.value == Formatted(200, NoBody, Messages.Deleted, None)
  {
    var data := map["status" := VStr("deleted")];
    ghost var before := articles.docs;
    assert Restrict(data, articles.schema) == data;
    r := BulkUpdate(articles, ids, data, {}, true, Some(Messages.Deleted));
    SetByIds(before, ids, "status", VStr("deleted"));
    DeletedAreInactive(before, ids);
  }
}
