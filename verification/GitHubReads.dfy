/**
 What the authority tools ask the hosting service, one aspect of an answer at a time, and what they keep of the
 answers. A query has no answer when the program would refuse it: a missing or ambiguous entry, a foreign
 repository, a pending or failed check.
 */
module GitHubReads {
  import opened Snapshots

  datatype Query =
    | MainBranch
    | TagReference(tag: string)
    | TagObject(sha: string, tag: string)
    | LatestRelease(tag: string)
    | Ancestry(source: string, tooling: string)
    | OperatorRun(tooling: string)
    | Checkout(tooling: string)
    | PublicationRun(source: string)
    | Jobs
    | Artifacts
    | Job(id: int)
    | Artifact(id: int)
    | File(path: string)
    | Endpoint(path: string)
    // the one latest check of this name on a commit
    | CheckId(source: string, name: string)
    | CheckRun(source: string, name: string)
    | CheckSuite(source: string, name: string)
    | CheckCompleted(source: string, name: string)
    // a workflow run; its attempt only if it is a trusted, successful run of that event for that commit
    | RunEvent(run: int)
    | RunPath(run: int)
    | RunSuite(run: int)
    | RunAttempt(run: int, source: string, event: Event)
    // a merged pull request, found by its head or by its merge commit
    | MergedPull(source: string)
    | AssociatedPull(main: string, source: string)
    | PullBase(pull: int, source: string)
    | PullReference(pull: int, source: string)
    | PullMerge(pull: int, source: string)
    | MergeParents(main: string)
    | Tree(commit: string)
    | MergeBase(base: string, head: string)

  datatype Event = Push | PullRequest

  /** A listed job or artifact: its identity and everything else it says. */
  datatype Item = Item(id: int, content: string)

  /** What the program keeps of an answer that it accepts. */
  datatype Fact =
    | Commit(sha: string)
    | Parents(base: string, source: string)
    | Published(id: int, at: string)
    | Confirmed
    | Number(n: int)
    | Attempt(n: int)
    | Listing(items: seq<Item>)
    | Entry(item: Item)
    | Content(text: string)

  type Client = Remote<Query, Fact>

  type Lookup<!R> = Procedure<Query, Fact, R>
}
