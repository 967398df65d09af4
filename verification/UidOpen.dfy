/**
Opening by user: who may share a device that is already open, and the sculluid device, whose
open and release each run in one piece under a spinlock.
*/
module UidOpen {
  import opened Kernel

  datatype Cred = Cred(uid: nat, euid: nat, override: bool)

  /** The owner's own processes, whoever did su, and holders of the capability may share. */
  predicate Shares(c: Cred, owner: nat) {
    owner == c.uid || owner == c.euid || c.override
  }

  predicate Available(count: int, owner: nat, c: Cred) {
    count == 0 || Shares(c, owner)
  }

  class ScullUid {
    var count: int
    var owner: nat
    ghost var handles: multiset<Cred>

    /** The count is the number of open handles, and every one of them may share with the owner. */
    ghost predicate Valid()
      reads this
    {
      count == |handles| && forall c :: c in handles ==> Shares(c, owner)
    }

    constructor ()
      ensures Valid() && handles == multiset{}
    {
      count, owner, handles := 0, 0, multiset{};
    }

    /**
    Refused exactly when the device is open and its owner is neither the caller's user nor its
    effective user, and the caller cannot override permissions.
    */
    method Open(c: Cred) returns (r: Result<()>)
      requires Valid()
      modifies this
      ensures Valid()
      ensures r.Err? <==>
                old(handles) != multiset{} && old(owner) != c.uid && old(owner) != c.euid && !c.override
      ensures r.Err? ==> r.error == EBUSY && unchanged(this)
      ensures r.Done? ==> handles == old(handles) + multiset{c}
      ensures r.Done? ==> owner == if old(handles) == multiset{} then c.uid else old(owner)
    {
      if count != 0 && owner != c.uid && owner != c.euid && !c.override {
        return Err(EBUSY);
      }
      if count == 0 {
        owner := c.uid;
      }
      count := count + 1;
      handles := handles + multiset{c};
      return Done(());
    }

    method Release(ghost c: Cred)
      requires Valid() && c in handles
      modifies this`count, this`handles
      ensures Valid() && handles == old(handles) - multiset{c}
    {
      count := count - 1;
      handles := handles - multiset{c};
    }
  }
}
