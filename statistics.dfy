/** Player statistics per article: one document per article `key`, holding a
    list of per-player entries that is upserted by player name. */
module Statistics {
  import opened Wrappers
  import opened Documents
  import opened Responses
  import opened CommonService
  import Messages

  /** The request body of `post`/`update`: `key` and `name` are required by
      validation, unknown keys are let through (`extra`). */
  datatype StatBody = StatBody(key: Option<Id>, name: Option<string>, rank: Option<string>,
                               strikeRate: Option<string>, matchesPlayed: Option<int>,
                               runsScored: Option<int>, imageUrl: Option<string>, extra: Patch)

  /** What a handler does with the response: sends a status with the saved
      document and a message, sends the formatted 400 validation error, or
      passes a thrown error to `next`. */
  datatype Outcome = Sent(status: int, data: Doc, message: string) | Invalid | Next

  /** The body passes validation: a key and a non-empty name. */
  predicate ValidStat(b: StatBody) {
    b.key.Some? && b.name.Some? && b.name.value != ""
  }

  /** The entry a valid body becomes in the `statistics` list; the list's
      sub-schema keeps only the player fields, and `imageUrl` is the path of
      the uploaded file. */
  function Entry(b: StatBody, filePath: string): (s: Stat)
    requires ValidStat(b)
    ensures s.name == b.name.value && s.imageUrl == Some(filePath)
  {
    Stat(b.name.value, b.rank, b.strikeRate, b.matchesPlayed, b.runsScored, Some(filePath))
  }

  /** The filter `{key}`; it has no `status` condition. */
  function ByKey(key: Id): Filter {
    map[Top("key") := Eq(VId(key))]
  }

  /** A document's `statistics` list; a missing list reads as empty. */
  function StatsOf(d: Doc): seq<Stat> {
    if "statistics" in d.fields && d.fields["statistics"].VStats? then d.fields["statistics"].stats else []
  }

  /** The position of the first entry named `name`. */
  function FirstNamed(list: seq<Stat>, name: string): (r: Option<nat>)
    ensures r.Some? ==> r.value < |list| && list[r.value].name == name
    ensures r.Some? ==> forall j :: 0 <= j < r.value ==> list[j].name != name
    ensures r.None? <==> forall j :: 0 <= j < |list| ==> list[j].name != name
  {
    if list == [] then None
    else if list[0].name == name then Some(0)
    else match FirstNamed(list[1..], name)
      case None => None
      case Some(i) => Some(i + 1)
  }

  /** The list after upserting `entry` by name: the first entry with the same
      name is replaced, or `entry` is appended; everything else keeps its
      value and position. */
  function Upserted(list: seq<Stat>, entry: Stat): (r: seq<Stat>)
    ensures entry in r
    ensures FirstNamed(list, entry.name).None? ==> |r| == |list| + 1 && r[..|list|] == list && r[|list|] == entry
    ensures FirstNamed(list, entry.name).Some? ==> |r| == |list| && r[FirstNamed(list, entry.name).value] == entry
    ensures forall i :: 0 <= i < |list| && Some(i) != FirstNamed(list, entry.name) ==> r[i] == list[i]
    ensures forall i :: 0 <= i < |r| && r[i] != entry ==> r[i] in list
  {
    match FirstNamed(list, entry.name)
    case Some(i) =>
      var r := list[i := entry];
      assert r[i] == entry;
      r
    case None => list + [entry]
  }

  /** The `for` loop with `break` that looks for the entry's name, then the
      index assignment or `push`. */
  method UpsertByName(list: seq<Stat>, entry: Stat) returns (r: seq<Stat>)
    ensures r == Upserted(list, entry)
  {
    var exist := false;
    var index := 0;
    for i := 0 to |list|
      invariant !exist
      invariant forall j :: 0 <= j < i ==> list[j].name != entry.name
    {
      if list[i].name == entry.name {
        index := i;
        exist := true;
        break;
      }
    }
    if !exist {
      r := list + [entry];
    } else {
      r := list[index := entry];
    }
  }

  /** `post`: a body failing validation gets 400 and nothing is written.
      Otherwise the document with the body's key (whatever its status) gets
      the entry upserted into its list and is saved (201, "Updated"), or a
      new document `{key, statistics: [entry]}` is created (201, "Created"). */
  method Post(stats: Collection, body: StatBody, filePath: string) returns (out: Outcome)
    requires stats.Valid()
    modifies stats
    ensures stats.Valid()
    ensures !ValidStat(body) ==> out == Invalid && stats.docs == old(stats.docs) && stats.nextId == old(stats.nextId)
    ensures ValidStat(body) ==>
              var entry := Entry(body, filePath);
              match old(stats.FindOne(ByKey(body.key.value)))
              case Some(d) =>
                var saved := Doc(d.id, d.fields["statistics" := VStats(Upserted(StatsOf(d), entry))]);
                stats.docs == Replace(old(stats.docs), saved) && out == Sent(201, saved, Messages.Updated)
              case None =>
                var created := stats.NewDoc(old(stats.nextId),
                                            map["key" := VId(body.key.value), "statistics" := VStats([entry])]);
                stats.docs == old(stats.docs) + [created] && out == Sent(201, created, Messages.Created)
  {
    if !ValidStat(body) {
      return Invalid;
    }
    var entry := Entry(body, filePath);
    var found := stats.FindOne(ByKey(body.key.value));
    match found {
      case Some(d) =>
        var list := UpsertByName(StatsOf(d), entry);
        var saved := Doc(d.id, d.fields["statistics" := VStats(list)]);
        assert HasId(stats.docs, saved.id);
        var _ := stats.UpdateExisting(saved, None, false);
        out := Sent(201, saved, Messages.Updated);
      case None =>
        var r := stats.Create(map["key" := VId(body.key.value), "statistics" := VStats([entry])], false);
        out := Sent(201, Payload(r).doc, Messages.Created);
    }
  }

  /** The body as the patch `existingDoc.set` receives. */
  function BodyFields(b: StatBody): (p: Patch)
    requires ValidStat(b)
    ensures "key" in p && p["key"] == VId(b.key.value)
    ensures "name" in p && p["name"] == VStr(b.name.value)
    ensures forall k :: k in b.extra && k != "key" && k != "name" ==> k in p && p[k] == b.extra[k]
  {
    b.extra + map["key" := VId(b.key.value), "name" := VStr(b.name.value)]
  }

  /** `update`: a body failing validation gets 400; the body is merged into
      the document with its key and saved (200, "Updated"); with no such
      document, `existingDoc.set` throws and the error goes to `next`. */
  method Update(stats: Collection, body: StatBody) returns (out: Outcome)
    requires stats.Valid()
    modifies stats
    ensures stats.Valid() && stats.nextId == old(stats.nextId)
    ensures !ValidStat(body) ==> out == Invalid && stats.docs == old(stats.docs)
    ensures ValidStat(body) ==>
              match old(stats.FindOne(ByKey(body.key.value)))
              case Some(d) =>
                var saved := Assign(d, BodyFields(body), stats.schema);
                stats.docs == Replace(old(stats.docs), saved) && out == Sent(200, saved, Messages.Updated)
              case None => out == Next && stats.docs == old(stats.docs)
  {
    if !ValidStat(body) {
      return Invalid;
    }
    var found := stats.FindOne(ByKey(body.key.value));
    if found.None? {
      return Next;
    }
    var d := found.value;
    assert HasId(stats.docs, d.id);
    var r := stats.UpdateExisting(d, Some(BodyFields(body)), false);
    out := Sent(200, Assign(d, BodyFields(body), stats.schema), Messages.Updated);
  }

  /** On the statistics schema `{statistics, key}`, an update whose body has
      no `statistics` key leaves the document's list as it was and its key
      equal to the body's, which the lookup already guarantees. */
  lemma UpdateKeepsStatistics(d: Doc, body: StatBody, schema: set<string>)
    requires ValidStat(body) && schema == {"statistics", "key"}
    requires "statistics" !in body.extra
    requires Matches(d, ByKey(body.key.value))
    ensures Assign(d, BodyFields(body), schema) == d
  {
    assert Top("key") in ByKey(body.key.value);
    var r := Assign(d, BodyFields(body), schema);
    assert r.fields == d.fields;
  }
}
