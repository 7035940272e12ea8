/**
 * What the programs ask of the GitHub client (Octokit), as data: close an
 * existing issue, or create a new one with a title, a body and labels, in
 * one repository. The client itself is not modelled; `Execute` models only
 * how a rejected call interacts with the calling loop: a call that throws
 * inside a `try`/`catch` lets the loop go on, any other throw ends the run.
 */
module Tracker {

  datatype Repo = Repo(owner: string, name: string)

  /** Octokit's `NewIssue`: title, body and the labels added to it. */
  datatype NewIssue = NewIssue(title: string, body: string, labels: seq<string>)

  datatype Request =
    | Close(repo: Repo, number: int)      // `Issue.Update(owner, repo, number, State = Closed)`
    | Create(repo: Repo, issue: NewIssue) // `Issue.Create(owner, repo, newIssue)`

  /**
   * The call at position `k` throws (its position is in `rejected`) and the
   * program does not catch it: only creates are guarded, and only when
   * `createsCaught`.
   */
  predicate Fatal(plan: seq<Request>, rejected: set<nat>, createsCaught: bool, k: nat)
    requires k < |plan|
  {
    k in rejected && !(plan[k].Create? && createsCaught)
  }

  /** The first fatal position at or after `from`, or `|plan|` if there is none. */
  function FirstFatal(plan: seq<Request>, rejected: set<nat>, createsCaught: bool, from: nat): (k: nat)
    requires from <= |plan|
    ensures from <= k <= |plan|
    ensures k < |plan| ==> Fatal(plan, rejected, createsCaught, k)
    ensures forall j :: from <= j < k ==> !Fatal(plan, rejected, createsCaught, j)
    decreases |plan| - from
  {
    if from == |plan| then from
    else if Fatal(plan, rejected, createsCaught, from) then from
    else FirstFatal(plan, rejected, createsCaught, from + 1)
  }

  /**
   * Issues the requests one after another and stops after the first fatal
   * rejection: every request up to and including it reaches the tracker,
   * none after it does.
   */
  method Execute(plan: seq<Request>, rejected: set<nat>, createsCaught: bool)
    returns (sent: seq<Request>, aborted: bool)
    ensures var k := FirstFatal(plan, rejected, createsCaught, 0);
            && aborted == (k < |plan|)
            && sent == if aborted then plan[..k + 1] else plan
  {
    sent, aborted := [], false;
    var i := 0;
    while i < |plan| && !aborted
      invariant 0 <= i <= |plan|
      invariant sent == plan[..i]
      invariant !aborted ==> forall j :: 0 <= j < i ==> !Fatal(plan, rejected, createsCaught, j)
      invariant aborted ==> 0 < i && FirstFatal(plan, rejected, createsCaught, 0) == i - 1
    {
      sent := sent + [plan[i]];
      if Fatal(plan, rejected, createsCaught, i) {
        aborted := true;
      }
      i := i + 1;
    }
  }

  /**
   * When failed creates are caught and no close is rejected, every request
   * is sent, however many creates the tracker refuses.
   */
  lemma CaughtCreatesDoNotStop(plan: seq<Request>, rejected: set<nat>)
    requires forall k :: k in rejected && k < |plan| ==> plan[k].Create?
    ensures FirstFatal(plan, rejected, true, 0) == |plan|
  {
  }

  /** When nothing is caught, the first refused request is the last one sent. */
  lemma UncaughtStopsAtFirstRejection(plan: seq<Request>, rejected: set<nat>, k: nat)
    requires k < |plan| && k in rejected
    requires forall j :: 0 <= j < k ==> j !in rejected
    ensures FirstFatal(plan, rejected, false, 0) == k
  {
    var m := FirstFatal(plan, rejected, false, 0);
    assert m <= k by {
      assert Fatal(plan, rejected, false, k);
    }
  }
}
