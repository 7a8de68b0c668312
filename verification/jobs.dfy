/** The `/trace` handler of the trial service: each posting of the upstream
    job listing is projected onto a nine-field record whose description has
    its tags stripped. A posting the projection fails on is skipped; a posting
    whose company cannot be read aborts the whole handler, because that read
    happens outside the handler's exception guard. */
module Jobs {
  import opened JsonValues
  import Tags

  type Object = map<string, Json>

  /** The record the handler appends for a posting: the stripped description
      and eight fields copied verbatim. */
  datatype Job = Job(
    description: Json,
    company: Json,
    companyUrl: Json,
    createdAt: Json,
    howToApply: Json,
    location: Json,
    title: Json,
    kind: Json,
    url: Json)

  /** The keys of every emitted record. */
  const JobKeys: set<string> :=
    {"company", "company_url", "created_at", "description", "how_to_apply",
     "location", "title", "type", "url"}

  /** The dictionary the handler builds for a record, keyed as the upstream posting is. */
  function ToObject(job: Job): (obj: Object)
    ensures obj.Keys == JobKeys
    ensures obj["description"] == job.description && obj["company"] == job.company
  {
    map[
      "description" := job.description,
      "company" := job.company,
      "company_url" := job.companyUrl,
      "created_at" := job.createdAt,
      "how_to_apply" := job.howToApply,
      "location" := job.location,
      "title" := job.title,
      "type" := job.kind,
      "url" := job.url]
  }

  /** What one iteration of the loop does with a posting. */
  datatype Step =
    | Abort          // the company read before the guard raised
    | Skip           // the guarded block raised; nothing was appended
    | Emit(job: Job) // the guarded block completed and appended `job`

  /** The outcome of the whole handler. */
  datatype Listing = Done(jobs: seq<Job>) | Aborted

  /** The read of `company` outside the guard raises: subscripting anything but
      an object is a type error, and an object without the key a key error. */
  predicate Aborts(item: Json) {
    !(item.JObject? && "company" in item.fields)
  }

  /** The guarded block can complete: every field is present and the
      description is a string the tag stripper accepts. */
  predicate Projectable(item: Json) {
    && item.JObject?
    && JobKeys <= item.fields.Keys
    && item.fields["description"].JString?
  }

  /** One iteration of the loop, in the order the handler evaluates it: the
      company is read outside the guard; inside it the description is
      stripped first, then the other fields are read one by one. */
  function ProjectItem(item: Json): (r: Step)
    ensures r == Abort <==> Aborts(item)
    ensures r.Emit? ==>
      && item.JObject? && "description" in item.fields && item.fields["description"].JString?
      && r.job.description == JString(Tags.RemoveTags(item.fields["description"].s))
  {
    match item
    case JObject(f) =>
      if "company" !in f then Abort
      else if "description" !in f || !f["description"].JString? then Skip
      else if "company_url" !in f || "created_at" !in f || "how_to_apply" !in f
           || "location" !in f || "title" !in f || "type" !in f || "url" !in f then Skip
      else Emit(Job(
        JString(Tags.RemoveTags(f["description"].s)),
        f["company"], f["company_url"], f["created_at"], f["how_to_apply"],
        f["location"], f["title"], f["type"], f["url"]))
    case _ => Abort
  }

  /** The iteration aborts exactly on the postings whose company cannot be
      read and emits exactly on the projectable ones. */
  lemma ProjectItemSpec(item: Json)
    ensures ProjectItem(item) == Abort <==> Aborts(item)
    ensures ProjectItem(item).Emit? <==> !Aborts(item) && Projectable(item)
  {
  }

  /** What the iteration emits has the nine keys, the stripped description
      and the other fields unchanged. */
  lemma EmittedRecord(item: Json)
    requires ProjectItem(item).Emit?
    ensures
      var obj := ToObject(ProjectItem(item).job);
      && obj.Keys == JobKeys
      && obj["description"] == JString(Tags.RemoveTags(item.fields["description"].s))
      && forall k :: k in obj && k != "description" ==> obj[k] == item.fields[k]
  {
  }

  /** What the postings contribute to the output, ignoring aborts. */
  function Projected(items: seq<Json>): (jobs: seq<Job>)
    decreases |items|
    ensures |jobs| <= |items|
  {
    if |items| == 0 then []
    else Contribution(items[0]) + Projected(items[1..])
  }

  function Contribution(item: Json): seq<Job> {
    match ProjectItem(item)
    case Emit(job) => [job]
    case _ => []
  }

  /** Output order follows input order: the projection of a concatenation is
      the concatenation of the projections. */
  lemma {:induction false} ProjectedConcat(a: seq<Json>, b: seq<Json>)
    ensures Projected(a + b) == Projected(a) + Projected(b)
    decreases |a|
  {
    if |a| == 0 {
      assert a + b == b;
    } else {
      assert (a + b)[1..] == a[1..] + b;
      ProjectedConcat(a[1..], b);
    }
  }

  /** A posting the guarded block fails on leaves the others' records as they were. */
  lemma SkipInvariant(a: seq<Json>, bad: Json, b: seq<Json>)
    requires ProjectItem(bad) == Skip
    ensures Projected(a + [bad] + b) == Projected(a + b)
  {
    assert Contribution(bad) == [];
    assert Projected([bad]) == [] by {
      assert [bad][1..] == [];
    }
    ProjectedConcat(a + [bad], b);
    ProjectedConcat(a, [bad]);
    ProjectedConcat(a, b);
  }

  /** At most one record per posting, and one exactly when every posting is
      projectable. */
  lemma {:induction false} ProjectedShape(items: seq<Json>)
    ensures |Projected(items)| <= |items|
    ensures |Projected(items)| == |items| <==> forall i :: 0 <= i < |items| ==> ProjectItem(items[i]).Emit?
    decreases |items|
  {
    if |items| > 0 {
      ProjectedShape(items[1..]);
      ProjectItemSpec(items[0]);
      assert forall i :: 1 <= i < |items| ==> items[i] == items[1..][i - 1];
    }
  }

  /** What one iteration adds to the records of the postings before it. */
  lemma TraceStep(items: seq<Json>, i: nat)
    requires i < |items|
    ensures ProjectItem(items[i]) == Abort <==> Aborts(items[i])
    ensures ProjectItem(items[i]).Emit? ==>
      Projected(items[..i + 1]) == Projected(items[..i]) + [ProjectItem(items[i]).job]
    ensures ProjectItem(items[i]).Skip? ==> Projected(items[..i + 1]) == Projected(items[..i])
  {
    ProjectedConcat(items[..i], [items[i]]);
    assert items[..i + 1] == items[..i] + [items[i]];
    assert [items[i]][1..] == [];
  }

  /** The loop of the handler: the record list is built left to right; the
      first posting whose company cannot be read ends the handler. */
  method Trace(items: seq<Json>) returns (out: Listing)
    ensures out.Aborted? <==> exists i :: 0 <= i < |items| && Aborts(items[i])
    ensures out.Done? ==> out.jobs == Projected(items)
  {
    var jobs: seq<Job> := [];
    var i := 0;
    while i < |items|
      invariant 0 <= i <= |items|
      invariant forall k :: 0 <= k < i ==> !Aborts(items[k])
      invariant jobs == Projected(items[..i])
    {
      TraceStep(items, i);
      match ProjectItem(items[i]) {
        case Abort =>
          return Aborted;
        case Skip =>
        case Emit(job) =>
          jobs := jobs + [job];
      }
      i := i + 1;
    }
    assert items[..i] == items;
    out := Done(jobs);
  }
}
