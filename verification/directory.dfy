/**
 * The user directory: the ordered, in-memory list of user records that every
 * route handler reads and rewrites. Ids are not unique (they are random
 * two-digit values), so every lookup is a "first match" search.
 */
module Directory {
  import opened Wrappers
  import opened Search

  /** A stored user; `password` holds the bcrypt hash, never the plaintext. */
  datatype User = User(id: int, name: string, email: string, password: string)

  type Dir = seq<User>

  /** The predicate `user => user.id === id`. */
  function HasId(id: int): User -> bool {
    (u: User) => u.id == id
  }

  /** The predicate `user => user.email === email`. */
  function HasEmail(email: string): User -> bool {
    (u: User) => u.email == email
  }

  /** `isEmailUnique`: no record of the directory carries this email. */
  function IsEmailUnique(dir: Dir, email: string): (r: bool)
    ensures r <==> forall i :: 0 <= i < |dir| ==> dir[i].email != email
  {
    !Any(dir, HasEmail(email))
  }

  /** Index of the first record with the given id, or -1. */
  function IndexOfId(dir: Dir, id: int): (k: int)
    ensures -1 <= k < |dir|
    ensures k == -1 <==> forall j :: 0 <= j < |dir| ==> dir[j].id != id
    ensures 0 <= k ==> dir[k].id == id && forall j :: 0 <= j < k ==> dir[j].id != id
  {
    FindIndex(dir, HasId(id))
  }

  /** Index of the first record with the given email, or -1. */
  function IndexOfEmail(dir: Dir, email: string): (k: int)
    ensures -1 <= k < |dir|
    ensures k == -1 <==> forall j :: 0 <= j < |dir| ==> dir[j].email != email
    ensures 0 <= k ==> dir[k].email == email && forall j :: 0 <= j < k ==> dir[j].email != email
  {
    FindIndex(dir, HasEmail(email))
  }

  /** `findUserById`: the first record whose id equals `id`, or undefined. */
  function FindUserById(dir: Dir, id: int): (r: Option<User>)
    ensures r.None? <==> forall j :: 0 <= j < |dir| ==> dir[j].id != id
    ensures r.Some? ==> exists k :: 0 <= k < |dir| && dir[k] == r.value && dir[k].id == id
                                    && forall j :: 0 <= j < k ==> dir[j].id != id
  {
    Find(dir, HasId(id))
  }

  /** `users.splice(k, 1)`: the record at `k` is removed, the rest keep their order. */
  function RemoveAt(dir: Dir, k: nat): (r: Dir)
    requires k < |dir|
    ensures |r| == |dir| - 1
    ensures forall j :: 0 <= j < k ==> r[j] == dir[j]
    ensures forall j :: k <= j < |r| ==> r[j] == dir[j + 1]
    ensures multiset(r) + multiset{dir[k]} == multiset(dir)
  {
    assert dir == dir[..k] + [dir[k]] + dir[k + 1..];
    dir[..k] + dir[k + 1..]
  }

  /** Number of records carrying the given id. */
  function CountId(dir: Dir, id: int): (n: nat)
    ensures n <= |dir|
    ensures n == 0 <==> forall j :: 0 <= j < |dir| ==> dir[j].id != id
  {
    if |dir| == 0 then 0
    else (if dir[0].id == id then 1 else 0) + CountId(dir[1..], id)
  }

  /** Counting ids distributes over concatenation. */
  lemma {:induction false} CountIdAppend(a: Dir, b: Dir, id: int)
    ensures CountId(a + b, id) == CountId(a, id) + CountId(b, id)
    decreases |a|
  {
    if |a| > 0 {
      assert (a + b)[1..] == a[1..] + b;
      CountIdAppend(a[1..], b, id);
    } else {
      assert a + b == b;
    }
  }

  /** No two records share an email. */
  predicate UniqueEmails(dir: Dir) {
    forall i, j :: 0 <= i < j < |dir| ==> dir[i].email != dir[j].email
  }

  /** Every id lies in the range the id generator draws from, [10, 99]. */
  predicate IdsInRange(dir: Dir) {
    forall i :: 0 <= i < |dir| ==> 10 <= dir[i].id <= 99
  }
}
