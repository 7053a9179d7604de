/**
 * What the three programs share: the request-queue entry each handler is
 * called with, the two collaborators they write to (the actor's dataset,
 * which `Actor.pushData` appends to, and the request queue, which
 * `requestQueue.addRequest` appends to), and the rule that resolves a
 * user-supplied team index.
 */
module Crawl {
  import opened Wrappers

  /** A queued request: the page to open and the `userData` it carries. */
  datatype Job = Job(url: string, stage: string, teamName: Option<string>, selectedTeamIndex: Option<int>)

  /** The actor's dataset: the records pushed so far, oldest first. */
  class Dataset<T> {
    var items: seq<T>

    constructor ()
      ensures items == []
    {
      items := [];
    }

    /** `Actor.pushData(record)`. */
    method Push(record: T)
      modifies this
      ensures items == old(items) + [record]
    {
      items := items + [record];
    }
  }

  /** The request queue: the jobs added so far, oldest first. */
  class RequestQueue {
    var jobs: seq<Job>

    constructor ()
      ensures jobs == []
    {
      jobs := [];
    }

    /** `requestQueue.addRequest(job)`. */
    method AddRequest(job: Job)
      modifies this
      ensures jobs == old(jobs) + [job]
    {
      jobs := jobs + [job];
    }
  }

  /**
   * The option a run follows among `count > 0` results: the requested index
   * when one was given and lies in `[0, count)`, the first option otherwise.
   * A bad index never stops the run.
   */
  function ChooseIndex(count: nat, requested: Option<int>): (k: nat)
    requires count > 0
    ensures k < count
    ensures requested.Some? && 0 <= requested.value < count ==> k == requested.value
    ensures !(requested.Some? && 0 <= requested.value < count) ==> k == 0
  {
    match requested
    case None => 0
    case Some(i) => if i >= 0 && i < count then i else 0
  }
}
