/** The lock manager: a sorted set of resources, taken one by one without waiting, all of them or none. */
module ResourceLocks {
  import opened Wrappers
  import opened Text
  import opened Insertion
  import opened LockProtocol

  lemma InsertKeepsOrder(sorted: seq<Resource>, resource: Resource)
    requires Ascending(sorted) && resource !in sorted
    ensures Ascending(Insert(sorted, resource, Less))
  {
    forall r | r in sorted
      ensures Less(resource, r) || Less(r, resource)
    {
      LessTotal(resource, r);
    }
    forall x, y, z | Less(x, y) && Less(y, z)
      ensures Less(x, z)
    {
      LessTransitive(x, y, z);
    }
    InsertSorts(sorted, resource, Less);
  }

  ghost function Elements(locks: seq<Resource>): set<Resource> {
    set r | r in locks
  }

  /** A lock that was refused, and the run that owned it at that moment. */
  datatype Refusal = Refusal(resource: Resource, holder: RunId)

  /** The lock files all processes share; `owner` says who holds which. */
  class LockDirectory {
    var owner: map<Resource, RunId>
    /** The locks each run was refused, in order. */
    ghost var refusals: map<RunId, seq<Refusal>>

    /** What a run owns. */
    ghost function Mine(me: RunId): set<Resource>
      reads this
    {
      set r | r in owner && owner[r] == me
    }

    ghost function Refused(me: RunId): seq<Refusal>
      reads this
    {
      if me in refusals then refusals[me] else []
    }

    method TryLock(resource: Resource, me: RunId) returns (ok: bool)
      modifies this
      ensures ok <==> resource !in old(owner)
      ensures owner == if ok then old(owner)[resource := me] else old(owner)
      ensures Refused(me) == old(Refused(me)) + if ok then [] else [Refusal(resource, old(owner)[resource])]
    {
      ok := resource !in owner;
      if ok {
        owner := owner[resource := me];
      } else {
        refusals := refusals[me := Refused(me) + [Refusal(resource, owner[resource])]];
      }
    }

    method Release(resource: Resource)
      modifies this`owner
      ensures owner == old(owner) - {resource}
    {
      owner := owner - {resource};
    }

    /** Other runs take free locks and give back their own, any number of times. */
    method OtherRuns(me: RunId)
      modifies this`owner
      ensures Mine(me) == old(Mine(me))
    {
      var steps: int := *;
      while steps > 0
        invariant Mine(me) == old(Mine(me))
      {
        var resource: Resource := *;
        var other: int := *;
        if resource in owner && owner[resource] != me {
          owner := owner - {resource};
        } else if resource !in owner && other >= 0 && other != me {
          owner := owner[resource := other];
        }
        steps := steps - 1;
      }
    }
  }

  /** Takes and gives back the locks of one run; other runs act between any two of its operations. */
  class ResourceLockManager {
    const me: RunId
    const resources: seq<Resource>
    const directory: LockDirectory

    /** Duplicates are dropped and the locks are tried in order. */
    constructor (me: RunId, wanted: set<Resource>, directory: LockDirectory)
      ensures this.me == me && this.directory == directory
      ensures Ascending(resources) && Elements(resources) == wanted
    {
      this.me, this.directory := me, directory;
      var sorted: seq<Resource> := [];
      var rest := wanted;
      while rest != {}
        invariant rest <= wanted && Ascending(sorted) && Elements(sorted) == wanted - rest
        decreases |rest|
      {
        var r :| r in rest;
        rest := rest - {r};
        assert r !in sorted by {
          assert r !in Elements(sorted);
        }
        InsertKeepsOrder(sorted, r);
        InsertKeeps(sorted, r, Less);
        assert Elements(Insert(sorted, r, Less)) == Elements(sorted) + {r};
        sorted := Insert(sorted, r, Less);
      }
      resources := sorted;
    }

    /** Gives back the first `count` locks, last one first. */
    method ReleaseFirst(count: nat)
      requires Ascending(resources) && count <= |resources| && directory.Mine(me) == Elements(resources[..count])
      modifies directory`owner
      ensures directory.Mine(me) == {}
    {
      var left := count;
      while left > 0
        invariant 0 <= left <= count && directory.Mine(me) == Elements(resources[..left])
      {
        left := left - 1;
        LastOf(left);
        directory.Release(resources[left]);
        directory.OtherRuns(me);
      }
    }

    lemma LastOf(n: nat)
      requires Ascending(resources) && n < |resources|
      ensures Elements(resources[..n + 1]) == Elements(resources[..n]) + {resources[n]} && resources[n] !in Elements(resources[..n])
    {
      assert resources[..n + 1] == resources[..n] + [resources[n]];
      forall i | 0 <= i < n
        ensures resources[i] != resources[n]
      {
        SortedDistinct(resources, i, n);
      }
    }

    /** All locks, or none: an attempt that is refused a lock, which `holder` owns, gives back what it took, and reports it. */
    method Acquire() returns (blocked: Option<Resource>, ghost holder: RunId)
      requires Ascending(resources) && directory.Mine(me) == {}
      modifies directory
      ensures blocked.None? ==> directory.Mine(me) == Elements(resources)
      ensures blocked.Some? ==> directory.Mine(me) == {} && blocked.value in resources
      ensures directory.Refused(me) == old(directory.Refused(me)) + if blocked.Some? then [Refusal(blocked.value, holder)] else []
      ensures blocked.Some? ==> holder != me
    {
      var taken := 0;
      holder := me;
      while taken < |resources|
        invariant 0 <= taken <= |resources| && directory.Mine(me) == Elements(resources[..taken])
        invariant directory.Refused(me) == old(directory.Refused(me))
      {
        directory.OtherRuns(me);
        LastOf(taken);
        assert resources[taken] !in directory.Mine(me);
        ghost var owner := directory.owner;
        var ok := directory.TryLock(resources[taken], me);
        if !ok {
          holder := owner[resources[taken]];
          ReleaseFirst(taken);
          return Some(resources[taken]), holder;
        }
        taken := taken + 1;
      }
      assert resources[..taken] == resources;
      return None, holder;
    }

    method ReleaseAll()
      requires Ascending(resources) && directory.Mine(me) == Elements(resources)
      modifies directory`owner
      ensures directory.Mine(me) == {}
    {
      assert resources[..|resources|] == resources;
      ReleaseFirst(|resources|);
    }

    /**
     Retries hold nothing while they sleep, need a configured delay, and stop after retryCount + 1 attempts; every attempt
     but the one that succeeds was refused a lock.
     */
    method AcquireWithRetry(retryCount: nat, retryDelay: bool) returns (acquired: bool, attempts: nat)
      requires Ascending(resources) && directory.Mine(me) == {}
      modifies directory
      ensures acquired ==> directory.Mine(me) == Elements(resources)
      ensures !acquired ==> directory.Mine(me) == {} && attempts == if retryDelay then retryCount + 1 else 1
      ensures 1 <= attempts <= retryCount + 1
      ensures |directory.Refused(me)| - old(|directory.Refused(me)|) == if acquired then attempts - 1 else attempts
    {
      attempts := 1;
      var blocked;
      ghost var holder;
      blocked, holder := Acquire();
      while blocked.Some? && attempts < retryCount + 1 && retryDelay
        invariant 1 <= attempts <= retryCount + 1 && (!retryDelay ==> attempts == 1)
        invariant directory.Mine(me) == if blocked.Some? then {} else Elements(resources)
        invariant |directory.Refused(me)| - old(|directory.Refused(me)|) == if blocked.Some? then attempts else attempts - 1
        decreases retryCount + 1 - attempts
      {
        directory.OtherRuns(me);
        attempts := attempts + 1;
        blocked, holder := Acquire();
      }
      acquired := blocked.None?;
    }
  }
}
