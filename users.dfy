/**
 * The `users` table: one row per Clerk identity, a text primary key generated
 * as "user_" followed by a nanoid, and two further unique columns.
 */
module Users {

  /** One row of `users`. Every column is NOT NULL; a name may be the empty string. */
  datatype User = User(
    id: string,
    clerkUserId: string,
    firstName: string,
    lastName: string,
    email: string)

  const IdPrefix: string := "user_"

  /** An id produced by the column default. */
  predicate IsGeneratedId(id: string) {
    |IdPrefix| <= |id| && id[..|IdPrefix|] == IdPrefix
  }

  /** The column default of `id`: "user_" followed by the nanoid it is given. */
  function GenerateId(nanoid: string): (id: string)
    ensures IsGeneratedId(id)
    ensures |id| == |IdPrefix| + |nanoid| && id[|IdPrefix|..] == nanoid
  {
    IdPrefix + nanoid
  }

  /** PRIMARY KEY on `id`. */
  predicate UniqueIds(t: seq<User>) {
    forall i, j :: 0 <= i < j < |t| ==> t[i].id != t[j].id
  }

  /** UNIQUE on `clerk_user_id`. */
  predicate UniqueClerkIds(t: seq<User>) {
    forall i, j :: 0 <= i < j < |t| ==> t[i].clerkUserId != t[j].clerkUserId
  }

  /** UNIQUE on `email`. */
  predicate UniqueEmails(t: seq<User>) {
    forall i, j :: 0 <= i < j < |t| ==> t[i].email != t[j].email
  }

  /** What the database enforces on every statement. */
  predicate SatisfiesConstraints(t: seq<User>) {
    UniqueIds(t) && UniqueClerkIds(t) && UniqueEmails(t)
  }

  /** The table invariant: the constraints, and every id came from the column default. */
  predicate ValidTable(t: seq<User>) {
    SatisfiesConstraints(t) && forall i :: 0 <= i < |t| ==> IsGeneratedId(t[i].id)
  }

  /** Some row is keyed by this Clerk id. */
  predicate HasClerkId(t: seq<User>, clerkId: string) {
    exists i :: 0 <= i < |t| && t[i].clerkUserId == clerkId
  }
}
