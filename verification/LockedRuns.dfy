/** A whole run of the runner between taking and giving back its locks. */
module LockedRuns {
  import opened JobModel
  import opened JobResources
  import opened JobService
  import opened LockProtocol
  import opened ResourceLocks

  datatype Outcome = Invalid | Blocked | Ran(ok: bool)

  /**
   An invalid target takes no lock, and a blocked run does nothing. Otherwise the run, its collection included, is what its
   target means, and from before its first hook to after its last callback the run owns exactly the target's resources;
   `held` is what it owned. Other runs take and give back locks all the while. Afterwards the run owns nothing.
   */
  method RunLocked(
      runner: JobRunner, directory: LockDirectory, me: RunId, ids: Ids, target: Target, retryCount: nat, retryDelay: bool)
      returns (outcome: Outcome, ghost held: set<Resource>)
    requires directory.Mine(me) == {}
    modifies runner, directory
    ensures outcome.Invalid? <==> !ValidTarget(runner.c.job, target)
    ensures outcome.Blocked? ==> |directory.Refused(me)| - old(|directory.Refused(me)|) == if retryDelay then retryCount + 1 else 1
    ensures !outcome.Ran? ==> runner.W() == old(runner.W())
    ensures outcome.Ran? ==> Result(runner.W(), outcome.ok) == RunTarget(runner.c, old(runner.W()), target)
    ensures outcome.Ran? ==> held == TargetResources(ids, runner.c.job, target)
    ensures directory.Mine(me) == {}
  {
    held := {};
    if !ValidTarget(runner.c.job, target) {
      return Invalid, held;
    }
    var manager := new ResourceLockManager(me, TargetResources(ids, runner.c.job, target), directory);
    var acquired, attempts := manager.AcquireWithRetry(retryCount, retryDelay);
    if !acquired {
      return Blocked, held;
    }
    directory.OtherRuns(me);
    held := directory.Mine(me);
    var ok := runner.Run(target);
    directory.OtherRuns(me);
    assert directory.Mine(me) == held;
    manager.ReleaseAll();
    outcome := Ran(ok);
  }
}
