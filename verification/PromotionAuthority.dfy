/**
 The live authority of a container promotion: what is read, in which order, and what is read again. The
 operations of other tools (protection, checks, the choice of a producer) are procedures and functions given
 from outside.
 */
module PromotionAuthority {
  import opened GitHubReads
  import opened Snapshots
  import opened Wrappers

  datatype Response =
    | Reference(name: string, kind: string, sha: string)
    | Tag(sha: string, name: string, kind: string, target: string)
    | Release(id: int, tag: string, draft: bool, prerelease: bool, publishedAt: string)
    | Comparison(base: string, mergeBase: string, behind: int, ahead: int, status: string)
    | Plain(fact: Option<Fact>)

  predicate IsSha(s: string) {
    |s| == 40 && forall k :: 0 <= k < 40 ==> '0' <= s[k] <= '9' || 'a' <= s[k] <= 'f'
  }

  predicate IsAncestor(r: Response, source: string, tooling: string) {
    && r.Comparison? && r.base == source && r.mergeBase == source && r.behind == 0 && r.ahead >= 0
    && r.status == (if source == tooling then "identical" else "ahead")
    && (r.ahead == 0) == (source == tooling)
  }

  /** The fact in an answer, or nothing when the program refuses the answer. */
  function Seen(q: Query, r: Response): Option<Fact> {
    match q
    case TagReference(tag) =>
      if r.Reference? && r.name == "refs/tags/" + tag && r.kind == "tag" && IsSha(r.sha) then Some(Commit(r.sha)) else None
    case TagObject(sha, tag) =>
      if r.Tag? && r.sha == sha && r.name == tag && r.kind == "commit" && IsSha(r.target) then Some(Commit(r.target)) else None
    case LatestRelease(tag) =>
      if r.Release? && r.id >= 1 && r.tag == tag && !r.draft && !r.prerelease && r.publishedAt != "" then
        Some(Published(r.id, r.publishedAt))
      else None
    case Ancestry(source, tooling) =>
      if IsAncestor(r, source, tooling) then Some(Confirmed) else None
    case _ =>
      if r.Plain? then r.fact else None
  }

  type World = (nat, Query) -> Response

  function Observed(world: World): History<Query, Fact> {
    (t: nat, q: Query) => Seen(q, world(t, q))
  }

  // ----- the release identity -----

  datatype ReleaseId = ReleaseId(source: string, tag: string, tagObject: string, release: int, publishedAt: string)

  function ReleaseStep(tag: string, tooling: string, facts: seq<Fact>): Step<Query, ReleaseId> {
    if |facts| == 0 then Get(TagReference(tag))
    else if !facts[0].Commit? then Stop
    else if |facts| == 1 then Get(TagObject(facts[0].sha, tag))
    else if !facts[1].Commit? then Stop
    else if |facts| == 2 then Get(LatestRelease(tag))
    else if !facts[2].Published? then Stop
    else if |facts| == 3 then Get(Ancestry(facts[1].sha, tooling))
    else if |facts| > 4 || facts[3] != Confirmed then Stop
    else Done(ReleaseId(facts[1].sha, tag, facts[0].sha, facts[2].id, facts[2].at))
  }

  function ReleaseReads(tag: string, tooling: string): Procedure<Query, Fact, ReleaseId> {
    (facts: seq<Fact>) => ReleaseStep(tag, tooling, facts)
  }

  lemma ReleaseIsFaithful(tag: string, tooling: string)
    ensures Faithful(ReleaseReads(tag, tooling))
  {
    var p := ReleaseReads(tag, tooling);
    forall f, g | Finished(p, f) && Finished(p, g) && p(f) == p(g)
      ensures f == g
    {
      assert |f| == 4 && |g| == 4;
    }
  }

  method ReleaseIdentity(api: Client, tag: string, tooling: string)
    returns (r: Option<ReleaseId>, ghost facts: seq<Fact>, ghost times: seq<nat>)
    modifies api
    ensures api.clock >= old(api.clock)
    ensures r.Some? ==>
              && IsRun(api.env, ReleaseReads(tag, tooling), facts, times, r.value)
              && Within(times, old(api.clock), api.clock)
  {
    ghost var p := ReleaseReads(tag, tooling);
    facts, times := [], [];
    var reference := api.Get(TagReference(tag));
    if !(reference.Some? && reference.value.Commit?) { return None, facts, times; }
    ghost var first := api.clock;
    var tagged := api.Get(TagObject(reference.value.sha, tag));
    if !(tagged.Some? && tagged.value.Commit?) { return None, facts, times; }
    ghost var second := api.clock;
    var release := api.Get(LatestRelease(tag));
    if !(release.Some? && release.value.Published?) { return None, facts, times; }
    ghost var third := api.clock;
    var comparison := api.Get(Ancestry(tagged.value.sha, tooling));
    if comparison != Some(Confirmed) { return None, facts, times; }
    facts := [reference.value, tagged.value, release.value, Confirmed];
    times := [first, second, third, api.clock];
    assert ReadAt(api.env, p, facts, 0, first);
    assert ReadAt(api.env, p, facts, 1, second);
    assert ReadAt(api.env, p, facts, 2, third);
    assert ReadAt(api.env, p, facts, 3, api.clock);
    r := Some(ReleaseId(tagged.value.sha, tag, reference.value.sha, release.value.id, release.value.at));
  }

  /** Forty lower-case hexadecimal digits. */
  predicate IsCommitName(s: string) {
    |s| == 40 && forall c :: c in s ==> '0' <= c <= '9' || 'a' <= c <= 'f'
  }

  /** The comparison starts at the source and nothing is missing from the tooling, which is the source itself or ahead of it. */
  predicate SaysAncestor(r: Response, source: string, tooling: string) {
    if source == tooling then r == Comparison(source, source, 0, 0, "identical")
    else r.Comparison? && r.ahead > 0 && r == Comparison(source, source, 0, r.ahead, "ahead")
  }

  lemma AncestorIsSaid(r: Response, source: string, tooling: string)
    ensures IsAncestor(r, source, tooling) <==> SaysAncestor(r, source, tooling)
  {
  }

  lemma CommitNameIsSha(s: string)
    ensures IsSha(s) <==> IsCommitName(s)
  {
    if IsCommitName(s) {
      assert forall k :: 0 <= k < 40 ==> s[k] in s;
    }
  }

  /** What it means that the release identity holds at an instant, told by the raw answers. */
  ghost predicate ReleaseStands(world: World, t: nat, tag: string, tooling: string, id: ReleaseId) {
    && id.tag == tag && id.release >= 1 && id.publishedAt != ""
    && IsCommitName(id.tagObject) && IsCommitName(id.source)
    && world(t, TagReference(tag)) == Reference("refs/tags/" + tag, "tag", id.tagObject)
    && world(t, TagObject(id.tagObject, tag)) == Tag(id.tagObject, tag, "commit", id.source)
    && world(t, LatestRelease(tag)) == Release(id.release, tag, false, false, id.publishedAt)
    && SaysAncestor(world(t, Ancestry(id.source, tooling)), id.source, tooling)
  }

  lemma ReleaseFacts(env: History<Query, Fact>, t: nat, tag: string, tooling: string, id: ReleaseId)
    requires Holds(env, ReleaseReads(tag, tooling), t, id)
    ensures id.tag == tag && env(t, TagReference(tag)) == Some(Commit(id.tagObject))
    ensures env(t, TagObject(id.tagObject, tag)) == Some(Commit(id.source))
    ensures env(t, LatestRelease(tag)) == Some(Published(id.release, id.publishedAt))
    ensures env(t, Ancestry(id.source, tooling)) == Some(Confirmed)
  {
    var p := ReleaseReads(tag, tooling);
    var facts :| p(facts) == Done(id) && HoldsWith(env, p, t, facts);
    assert |facts| == 4;
    assert ReadAt(env, p, facts, 0, t) && ReadAt(env, p, facts, 1, t);
    assert ReadAt(env, p, facts, 2, t) && ReadAt(env, p, facts, 3, t);
  }

  /** The release identity holds at an instant exactly when the answers at that instant say so. */
  lemma ReleaseHoldsMeans(world: World, t: nat, tag: string, tooling: string, id: ReleaseId)
    ensures Holds(Observed(world), ReleaseReads(tag, tooling), t, id) <==> ReleaseStands(world, t, tag, tooling, id)
  {
    hide IsSha, IsCommitName, IsAncestor, SaysAncestor;
    var p, env := ReleaseReads(tag, tooling), Observed(world);
    CommitNameIsSha(id.tagObject);
    CommitNameIsSha(id.source);
    AncestorIsSaid(world(t, Ancestry(id.source, tooling)), id.source, tooling);
    if Holds(env, p, t, id) {
      ReleaseFacts(env, t, tag, tooling, id);
      assert Seen(TagReference(tag), world(t, TagReference(tag))) == Some(Commit(id.tagObject));
      assert Seen(TagObject(id.tagObject, tag), world(t, TagObject(id.tagObject, tag))) == Some(Commit(id.source));
      assert Seen(LatestRelease(tag), world(t, LatestRelease(tag))) == Some(Published(id.release, id.publishedAt));
      assert Seen(Ancestry(id.source, tooling), world(t, Ancestry(id.source, tooling))) == Some(Confirmed);
    }
    if ReleaseStands(world, t, tag, tooling, id) {
      var facts := [Commit(id.tagObject), Commit(id.source), Published(id.release, id.publishedAt), Confirmed];
      assert ReadAt(env, p, facts, 0, t);
      assert ReadAt(env, p, facts, 1, t);
      assert ReadAt(env, p, facts, 2, t);
      assert ReadAt(env, p, facts, 3, t);
      assert p(facts) == Done(id) && HoldsWith(env, p, t, facts);
    }
  }

  // ----- the container producer -----

  datatype Producer = Producer(attempt: int, job: Item, artifact: Item)

  datatype Failure = Refused | Changed

  /** The choice of the producing job and artifact from one attempt's inventories, by identity. */
  type Selection = (int, seq<Item>, seq<Item>) -> Option<(int, int)>

  function Find(items: seq<Item>, id: int): (found: Option<Item>)
    ensures found.Some? ==> found.value in items && found.value.id == id
  {
    if items == [] then None else if items[0].id == id then Some(items[0]) else Find(items[1..], id)
  }

  /** An inventory and a lookup of one entry show the same entry when read in the same instant. */
  ghost predicate ListingsAgree(env: History<Query, Fact>) {
    && (forall t: nat, items: seq<Item>, item: Item ::
          env(t, Jobs) == Some(Listing(items)) && item in items ==> env(t, Job(item.id)) == Some(Entry(item)))
    && (forall t: nat, items: seq<Item>, item: Item ::
          env(t, Artifacts) == Some(Listing(items)) && item in items ==> env(t, Artifact(item.id)) == Some(Entry(item)))
  }

  ghost predicate ProducerStands(env: History<Query, Fact>, t: nat, source: string, p: Producer) {
    && env(t, PublicationRun(source)) == Some(Attempt(p.attempt))
    && env(t, Job(p.job.id)) == Some(Entry(p.job))
    && env(t, Artifact(p.artifact.id)) == Some(Entry(p.artifact))
  }

  /** The reads of the producer lookup: the run, both inventories, the selected entries, and the run again. */
  function ProducerStep(source: string, select: Selection, facts: seq<Fact>): Step<Query, Producer> {
    if |facts| == 0 then Get(PublicationRun(source))
    else if !facts[0].Attempt? then Stop
    else if |facts| == 1 then Get(Jobs)
    else if !facts[1].Listing? then Stop
    else if |facts| == 2 then Get(Artifacts)
    else if !facts[2].Listing? then Stop
    else match select(facts[0].n, facts[1].items, facts[2].items)
      case None => Stop
      case Some((jobId, artifactId)) =>
        var job, artifact := Find(facts[1].items, jobId), Find(facts[2].items, artifactId);
        if |facts| == 3 then Get(Job(jobId))
        else if |facts| == 4 then Get(Artifact(artifactId))
        else if job.None? || artifact.None? || facts[3] != Entry(job.value) || facts[4] != Entry(artifact.value) then Stop
        else if |facts| == 5 then Get(PublicationRun(source))
        else if |facts| > 6 || facts[5] != facts[0] then Stop
        else Done(Producer(facts[0].n, job.value, artifact.value))
  }

  function ProducerReads(source: string, select: Selection): Procedure<Query, Fact, Producer> {
    (facts: seq<Fact>) => ProducerStep(source, select, facts)
  }

  /** A run of the producer lookup gives the producer, and it stands when the artifacts were listed. */
  lemma ProducerStandsWhenListed(
    env: History<Query, Fact>, source: string, select: Selection, facts: seq<Fact>, times: seq<nat>, p: Producer, lo: nat, hi: nat)
    requires IsRun(env, ProducerReads(source, select), facts, times, p)
    requires Steady(env, lo, hi) && ListingsAgree(env)
    requires |times| == 6 && lo <= times[0] <= times[1] <= times[2] <= times[3] <= times[4] <= times[5] <= hi
    ensures ProducerStands(env, times[2], source, p)
  {
    ProducerFacts(env, source, select, facts, times, p);
    ReadHolds(env, PublicationRun(source), Attempt(p.attempt), lo, times[0], times[2], times[5], hi);
    ReadHolds(env, Job(p.job.id), Entry(p.job), lo, times[1], times[2], times[3], hi);
  }

  lemma ProducerFacts(
    env: History<Query, Fact>, source: string, select: Selection, facts: seq<Fact>, times: seq<nat>, p: Producer)
    requires IsRun(env, ProducerReads(source, select), facts, times, p) && ListingsAgree(env)
    ensures |times| == 6
    ensures env(times[0], PublicationRun(source)) == env(times[5], PublicationRun(source)) == Some(Attempt(p.attempt))
    ensures env(times[1], Job(p.job.id)) == env(times[3], Job(p.job.id)) == Some(Entry(p.job))
    ensures env(times[2], Artifact(p.artifact.id)) == env(times[4], Artifact(p.artifact.id)) == Some(Entry(p.artifact))
  {
    var lookup := ProducerReads(source, select);
    assert |facts| == 6;
    assert ReadAt(env, lookup, facts, 0, times[0]) && ReadAt(env, lookup, facts, 1, times[1]) && ReadAt(env, lookup, facts, 2, times[2]);
    assert ReadAt(env, lookup, facts, 3, times[3]) && ReadAt(env, lookup, facts, 4, times[4]) && ReadAt(env, lookup, facts, 5, times[5]);
    assert env(times[1], Jobs) == Some(Listing(facts[1].items)) && p.job in facts[1].items;
    assert env(times[2], Artifacts) == Some(Listing(facts[2].items)) && p.artifact in facts[2].items;
  }

  lemma ProducerIsRun(
    env: History<Query, Fact>, source: string, select: Selection, facts: seq<Fact>, times: seq<nat>, job: Item, artifact: Item)
    requires |facts| == |times| == 6 && facts[0].Attempt? && facts[1].Listing? && facts[2].Listing?
    requires select(facts[0].n, facts[1].items, facts[2].items) == Some((job.id, artifact.id))
    requires Find(facts[1].items, job.id) == Some(job) && Find(facts[2].items, artifact.id) == Some(artifact)
    requires facts[3] == Entry(job) && facts[4] == Entry(artifact) && facts[5] == facts[0]
    requires env(times[0], PublicationRun(source)) == Some(facts[0]) && env(times[1], Jobs) == Some(facts[1])
    requires env(times[2], Artifacts) == Some(facts[2]) && env(times[3], Job(job.id)) == Some(facts[3])
    requires env(times[4], Artifact(artifact.id)) == Some(facts[4]) && env(times[5], PublicationRun(source)) == Some(facts[5])
    ensures IsRun(env, ProducerReads(source, select), facts, times, Producer(facts[0].n, job, artifact))
  {
    hide Find;
    var lookup := ProducerReads(source, select);
    assert ReadAt(env, lookup, facts, 0, times[0]);
    assert ReadAt(env, lookup, facts, 1, times[1]);
    assert ReadAt(env, lookup, facts, 2, times[2]);
    assert ReadAt(env, lookup, facts, 3, times[3]);
    assert ReadAt(env, lookup, facts, 4, times[4]);
    assert ReadAt(env, lookup, facts, 5, times[5]);
  }

  lemma SixInOrder(times: seq<nat>, lo: nat, hi: nat)
    requires |times| == 6 && lo <= times[0] <= times[1] <= times[2] <= times[3] <= times[4] <= times[5] <= hi
    ensures Within(times, lo, hi)
  {
  }

  /** The producer lookup; `facts` and `times` are its run, and the artifacts were listed at the third time. */
  method ContainerAuthority(api: Client, source: string, select: Selection)
    returns (r: Result<Producer, Failure>, ghost facts: seq<Fact>, ghost times: seq<nat>)
    modifies api
    ensures api.clock >= old(api.clock)
    ensures r.Ok? ==>
              && IsRun(api.env, ProducerReads(source, select), facts, times, r.value)
              && Within(times, old(api.clock), api.clock) && |times| == 6
    ensures r.Ok? && Steady(api.env, old(api.clock), api.clock) && ListingsAgree(api.env) ==>
              ProducerStands(api.env, times[2], source, r.value)
    ensures Still(api.env, old(api.clock), api.clock) && ListingsAgree(api.env) ==> r != Err(Changed)
  {
    hide IsRun, ProducerReads, ProducerStands, Steady, Find, Within;
    facts, times := [], [];
    var run := api.Get(PublicationRun(source));
    if !(run.Some? && run.value.Attempt?) { return Err(Refused), facts, times; }
    ghost var start := api.clock;
    var jobs := api.Get(Jobs);
    if !(jobs.Some? && jobs.value.Listing?) { return Err(Refused), facts, times; }
    ghost var listed := api.clock;
    var artifacts := api.Get(Artifacts);
    if !(artifacts.Some? && artifacts.value.Listing?) { return Err(Refused), facts, times; }
    ghost var at := api.clock;
    var selected := select(run.value.n, jobs.value.items, artifacts.value.items);
    if selected.None? { return Err(Refused), facts, times; }
    var job := api.Get(Job(selected.value.0));
    if job.None? { return Err(Refused), facts, times; }
    ghost var jobAt := api.clock;
    var artifact := api.Get(Artifact(selected.value.1));
    if artifact.None? { return Err(Refused), facts, times; }
    ghost var artifactAt := api.clock;
    var listedJob, listedArtifact := Find(jobs.value.items, selected.value.0), Find(artifacts.value.items, selected.value.1);
    if listedJob.None? || listedArtifact.None? { return Err(Refused), facts, times; }
    if job.value != Entry(listedJob.value) || artifact.value != Entry(listedArtifact.value) { return Err(Changed), facts, times; }
    var after := api.Get(PublicationRun(source));
    if after.None? { return Err(Refused), facts, times; }
    if after.value != run.value { return Err(Changed), facts, times; }
    r := Ok(Producer(run.value.n, listedJob.value, listedArtifact.value));
    facts := [run.value, jobs.value, artifacts.value, job.value, artifact.value, after.value];
    times := [start, listed, at, jobAt, artifactAt, api.clock];
    SixInOrder(times, old(api.clock), api.clock);
    ProducerIsRun(api.env, source, select, facts, times, listedJob.value, listedArtifact.value);
    if Steady(api.env, old(api.clock), api.clock) && ListingsAgree(api.env) {
      ProducerStandsWhenListed(api.env, source, select, facts, times, r.value, old(api.clock), api.clock);
    }
  }
}
