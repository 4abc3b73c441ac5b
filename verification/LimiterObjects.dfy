/** The module-level semaphores of shared/codex_concurrency.py as objects: created on first use, looked
    up again on release, one per user for the life of the process. `Enter` and `Leave` are the two halves
    of acquire_sync at the moments when its acquires have been granted. */
module LimiterObjects {
  import opened Wrappers
  import Limiter

  class Semaphore {
    var permits: nat

    constructor (n: nat)
      ensures permits == n
    {
      permits := n;
    }
  }

  class Semaphores {
    const caps: Limiter.Caps
    var global_: Semaphore?
    var users: map<string, Semaphore>

    constructor (caps: Limiter.Caps)
      ensures Valid() && this.caps == caps && global_ == null && users == map[]
    {
      this.caps := caps;
      global_, users := null, map[];
    }

    ghost predicate Valid()
      reads this
    {
      && (forall user | user in users :: users[user] != global_)
      && (forall a, b | a in users && b in users && a != b :: users[a] != users[b])
    }

    ghost function Footprint(): set<object>
      reads this
    {
      (if global_ == null then {} else {global_}) + set user | user in users :: users[user]
    }

    /** Global permits left; a semaphore that does not exist yet has all of its own. */
    ghost function GlobalFree(): nat
      reads this, Footprint()
    {
      if global_ == null then caps.total else global_.permits
    }

    ghost function UserFree(user: string): nat
      reads this, Footprint()
    {
      if user in users then users[user].permits else caps.perUser
    }

    /** `_global_sync()`. */
    method GlobalSync() returns (sem: Semaphore)
      requires Valid()
      modifies this`global_
      ensures Valid() && sem == global_ && (old(global_) != null ==> sem == old(global_))
      ensures old(global_) == null ==> fresh(sem)
      ensures GlobalFree() == old(GlobalFree()) && users == old(users)
    {
      if global_ == null {
        global_ := new Semaphore(caps.total);
      }
      sem := global_;
    }

    /** `_user_sync(user_id)`. */
    method UserSync(user: string) returns (sem: Semaphore)
      requires Valid()
      modifies this`users
      ensures Valid() && user in users && sem == users[user]
      ensures user in old(users) ==> users == old(users)
      ensures user !in old(users) ==> fresh(sem) && users == old(users)[user := sem]
      ensures GlobalFree() == old(GlobalFree()) && forall v :: UserFree(v) == old(UserFree(v))
    {
      if user !in users {
        var made := new Semaphore(caps.perUser);
        users := users[user := made];
      }
      sem := users[user];
    }

    /** acquire_sync up to its yield. The two `requires` are what the two acquires wait for. */
    method Enter(user: Option<string>)
      requires Valid() && GlobalFree() > 0 && (Limiter.Capped(user) ==> UserFree(user.value) > 0)
      modifies this, Footprint()
      ensures Valid() && GlobalFree() == old(GlobalFree()) - 1
      ensures forall v :: UserFree(v) == old(UserFree(v)) - if Limiter.Capped(user) && v == user.value then 1 else 0
      ensures global_ != null && (Limiter.Capped(user) ==> user.value in users)
      ensures (old(global_) != null ==> global_ == old(global_))
      ensures forall v | v in old(users) :: v in users && users[v] == old(users)[v]
      ensures fresh(Footprint() - old(Footprint()))
    {
      var g := GlobalSync();
      assert forall v :: UserFree(v) == old(UserFree(v));
      g.permits := g.permits - 1;
      assert forall v :: UserFree(v) == old(UserFree(v));
      if user.Some? && user.value != "" {
        var u := UserSync(user.value);
        assert UserFree(user.value) == u.permits;
        label Granted:
        u.permits := u.permits - 1;
        assert forall v :: UserFree(v) == old@Granted(UserFree(v)) - if v == user.value then 1 else 0;
      }
    }

    /** The finally block of acquire_sync: the user permit first, then the global one. */
    method Leave(user: Option<string>)
      requires Valid() && global_ != null && (Limiter.Capped(user) ==> user.value in users)
      modifies this, Footprint()
      ensures Valid() && GlobalFree() == old(GlobalFree()) + 1
      ensures forall v :: UserFree(v) == old(UserFree(v)) + if Limiter.Capped(user) && v == user.value then 1 else 0
      ensures global_ == old(global_) && users == old(users)
    {
      if user.Some? && user.value != "" {
        users[user.value].permits := users[user.value].permits + 1;
      }
      var g := GlobalSync();
      g.permits := g.permits + 1;
    }

    /** A whole call gives back exactly what it took, for every semaphore. */
    method EnterThenLeave(user: Option<string>)
      requires Valid() && GlobalFree() > 0 && (Limiter.Capped(user) ==> UserFree(user.value) > 0)
      modifies this, Footprint()
      ensures Valid() && GlobalFree() == old(GlobalFree()) && forall v :: UserFree(v) == old(UserFree(v))
    {
      Enter(user);
      Leave(user);
    }
  }
}
