/** The storage layer as the services see it: get a document by id, insert a
    document under an id the table does not yet use, patch, delete. Patching
    and deleting are map updates written in the services themselves; this
    module holds what they share. */
module Store {
  import opened Wrappers
  import opened Schema

  /** What a mutation can throw. `DuplicateEmail` is the one error the services
      raise themselves; `NonexistentDocument` is the storage layer refusing to
      patch or delete an id that is not in its table. */
  datatype Error = DuplicateEmail | NonexistentDocument

  /** The result of an insert: the new database and the id it chose. */
  datatype Created<I> = Created(db: Db, id: I)

  /** Point lookup by id: the document, or nothing when the id is not stored. */
  function Get<K, V>(m: map<K, V>, k: K): (r: Option<V>)
    ensures r.Some? <==> k in m
    ensures r.Some? ==> r.value == m[k]
  {
    if k in m then Some(m[k]) else None
  }

  /** The naturals below `n`. */
  function Below(n: nat): (r: set<nat>)
    ensures forall i: nat :: i in r <==> i < n
    ensures |r| == n
  {
    if n == 0 then {} else Below(n - 1) + {n - 1}
  }

  /** Pigeonhole: a set holding every natural below `n` has at least `n` elements. */
  lemma CoveredPrefixBound(used: set<nat>, n: nat)
    requires forall i: nat :: i < n ==> i in used
    ensures n <= |used|
  {
    var prefix := Below(n);
    assert used == prefix + (used - prefix);
  }

  /** The least natural not in `used`, searching upward from `n`. */
  function LeastUnusedFrom(used: set<nat>, n: nat): (r: nat)
    requires forall i: nat :: i < n ==> i in used
    ensures r !in used
    ensures forall i: nat :: i < r ==> i in used
    decreases |used| - n
  {
    if n !in used then n
    else
      CoveredPrefixBound(used, n + 1);
      LeastUnusedFrom(used, n + 1)
  }

  /** The least natural number that `used` does not contain. */
  function FreshNat(used: set<nat>): (r: nat)
    ensures r !in used
    ensures forall i: nat :: i < r ==> i in used
  {
    LeastUnusedFrom(used, 0)
  }

  /** Every user id a task or a group names: creators, assignees, members. */
  function UserRefs(db: Db): (r: set<UserId>)
    ensures forall k :: k in db.tasks ==> db.tasks[k].createdBy in r
    ensures forall k :: k in db.tasks && db.tasks[k].assignedTo.Some? ==> db.tasks[k].assignedTo.value in r
    ensures forall g :: g in db.groups ==> db.groups[g].createdBy in r
    ensures forall g, m :: g in db.groups && m in db.groups[g].members ==> m in r
  {
    (set k | k in db.tasks :: db.tasks[k].createdBy)
    + (set k | k in db.tasks && db.tasks[k].assignedTo.Some? :: db.tasks[k].assignedTo.value)
    + (set g | g in db.groups :: db.groups[g].createdBy)
    + (set g, m | g in db.groups && m in db.groups[g].members :: m)
  }

  /** The id an insert into the users table chooses: one no stored user has and
      no task or group names. The storage layer's ids cannot be named before
      they are issued, so a reference that resolved to nothing keeps resolving
      to nothing. */
  function NewUserId(db: Db): (id: UserId)
    ensures id !in db.users
    ensures id !in UserRefs(db)
  {
    var refs := UserRefs(db);
    var used := (set k | k in db.users :: k.raw) + (set k | k in refs :: k.raw);
    var id := UserId(FreshNat(used));
    assert id in db.users ==> id.raw in used;
    assert id in refs ==> id.raw in used;
    id
  }

  /** The id an insert into the tasks table chooses: one no stored task has and
      the table has never handed out before, so a deleted task's id is never
      reused. */
  function NewTaskId(tasks: map<TaskId, Task>, issued: set<TaskId>): (id: TaskId)
    ensures id !in tasks
    ensures id !in issued
  {
    var used := (set k | k in tasks :: k.raw) + (set k | k in issued :: k.raw);
    var id := TaskId(FreshNat(used));
    assert id in tasks ==> id.raw in used;
    assert id in issued ==> id.raw in used;
    id
  }

  /** A set of query results in one-to-one correspondence, through `key`, with
      a set of ids has as many elements as there are ids. */
  lemma {:induction false} BijectionCardinality<E, K>(es: set<E>, keys: set<K>, key: E -> K)
    requires forall e :: e in es ==> key(e) in keys
    requires forall k :: k in keys ==> exists e :: e in es && key(e) == k
    requires forall a, b :: a in es && b in es && key(a) == key(b) ==> a == b
    ensures |es| == |keys|
    decreases es
  {
    if es != {} {
      var e :| e in es;
      var rest := es - {e};
      var others := keys - {key(e)};
      forall k | k in others
        ensures exists x :: x in rest && key(x) == k
      {
        var x :| x in es && key(x) == k;
        assert x != e;
      }
      BijectionCardinality(rest, others, key);
    }
  }
}
