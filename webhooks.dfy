/**
 * The `webhooks.clerk` procedure: it authenticates a Svix-signed delivery
 * from Clerk and mirrors `user.created`, `user.updated` and `user.deleted`
 * into the `users` table, pushing the local id back to Clerk as `externalId`.
 *
 * Each database statement is modelled on values: it computes the new table
 * and is refused, leaving the table as it was, when the result would break a
 * unique column. The handler itself is a method on a class that owns the table.
 */
module ClerkWebhook {
  import opened Common
  import opened Users

  // ---------------------------------------------------------------------------
  // Events and responses
  // ---------------------------------------------------------------------------

  /** The three headers the procedure's input schema requires. */
  datatype SvixHeaders = SvixHeaders(svixId: string, svixTimestamp: string, svixSignature: string)

  /** A verified Clerk event, as the discriminated union of payloads the handler inspects. */
  datatype Event =
    | UserCreated(id: string, emailAddresses: seq<string>, firstName: Option<string>, lastName: Option<string>)
    | UserUpdated(id: string, emailAddresses: seq<string>, firstName: Option<string>, lastName: Option<string>)
    | UserDeleted(deletedId: Option<string>)
    | OtherEvent  // any other event type; its payload is never read

  /** One outbound `clerkClient.users.updateUser(clerkUserId, { externalId })` call. */
  datatype ClerkCall = UpdateExternalId(clerkUserId: string, externalId: string)

  /** Why a request failed; each one is an exception that reaches the caller. */
  datatype HandlerError =
    | MissingWebhookSecret    // "Missing CLERK_WEBHOOK_SECRET"
    | VerificationFailed      // "Webhook verification failed"
    | NoEmailFound            // "No email found"
    | UniqueConstraintFailed  // the database refused the statement
    | UpdatedUserUndefined    // `updatedUser.id` read on undefined
    | ClerkUpdateFailed       // the updateUser call threw
    | NoUserIdFound           // "No user ID found"

  /** `{ success: true, message }`, or the exception the request ends with. */
  datatype Response = Success(message: string) | Failure(error: HandlerError)

  /** `if (!webhookSecret)`: an empty secret counts as missing. */
  predicate SecretConfigured(secret: Option<string>) {
    secret.Some? && secret.value != ""
  }

  /** The event the handler goes on with: none when the secret is missing or Svix rejects the delivery. */
  function Verified(secret: Option<string>, body: string, headers: SvixHeaders,
                    verify: (string, string, SvixHeaders) -> Option<Event>): (ev: Option<Event>)
    ensures secret.None? || secret == Some("") ==> ev.None?
    ensures SecretConfigured(secret) ==> ev == verify(secret.value, body, headers)
  {
    if SecretConfigured(secret) then verify(secret.value, body, headers) else None
  }

  /** `email_addresses[0]?.email_address`, absent also when it is the empty string. */
  function PrimaryEmail(addresses: seq<string>): (email: Option<string>)
    ensures email.Some? <==> |addresses| > 0 && addresses[0] != ""
    ensures email.Some? ==> email.value == addresses[0] && email.value != ""
  {
    if |addresses| > 0 && addresses[0] != "" then Some(addresses[0]) else None
  }

  /** The row `user.created` inserts; a null name becomes "". */
  function NewUser(id: string, clerkId: string, email: string,
                   firstName: Option<string>, lastName: Option<string>): (u: User)
    ensures u.id == id && u.clerkUserId == clerkId && u.email == email
    ensures u.firstName == (if firstName.Some? then firstName.value else "")
    ensures u.lastName == (if lastName.Some? then lastName.value else "")
  {
    User(id, clerkId, firstName.GetOr(""), lastName.GetOr(""), email)
  }

  // ---------------------------------------------------------------------------
  // INSERT
  // ---------------------------------------------------------------------------

  /** Some existing row shares the primary key, the Clerk id or the email of `row`. */
  predicate KeyTaken(t: seq<User>, row: User) {
    exists i :: 0 <= i < |t| && (t[i].id == row.id || t[i].clerkUserId == row.clerkUserId || t[i].email == row.email)
  }

  /** `INSERT INTO users`: the row is appended, or the statement is refused (None). */
  function Insert(t: seq<User>, row: User): (r: Option<seq<User>>)
    ensures r.Some? ==> r.value == t + [row] && SatisfiesConstraints(r.value)
  {
    if SatisfiesConstraints(t + [row]) then Some(t + [row]) else None
  }

  /** On a table that meets its constraints, an insert is refused exactly when a key of the row is taken. */
  lemma InsertAcceptedIff(t: seq<User>, row: User)
    requires SatisfiesConstraints(t)
    ensures Insert(t, row).Some? <==> !KeyTaken(t, row)
  {
    var t' := t + [row];
    if KeyTaken(t, row) {
      var i :| 0 <= i < |t| && (t[i].id == row.id || t[i].clerkUserId == row.clerkUserId || t[i].email == row.email);
      assert t'[i] == t[i] && t'[|t|] == row;
    } else {
      forall i, j | 0 <= i < j < |t'|
        ensures t'[i].id != t'[j].id && t'[i].clerkUserId != t'[j].clerkUserId && t'[i].email != t'[j].email
      {
        assert t'[i] == t[i];
        if j < |t| { assert t'[j] == t[j]; }
      }
    }
  }

  /** A second delivery of the same `user.created` cannot add a second row for that Clerk id. */
  lemma DuplicateCreateRejected(t: seq<User>, row: User, again: User)
    requires SatisfiesConstraints(t) && Insert(t, row).Some?
    requires again.clerkUserId == row.clerkUserId
    ensures Insert(Insert(t, row).value, again).None?
  {
    var t' := Insert(t, row).value;
    assert t'[|t|] == row;
    InsertAcceptedIff(t', again);
  }

  // ---------------------------------------------------------------------------
  // UPDATE ... SET ... WHERE clerk_user_id = ?
  // ---------------------------------------------------------------------------

  /** The `set` object: the email always, a name only when the event carries a non-empty one. */
  datatype Patch = Patch(email: string, firstName: Option<string>, lastName: Option<string>)

  /** A JavaScript-truthy string: present and not empty. */
  function Truthy(s: Option<string>): (r: Option<string>)
    ensures r.Some? <==> s.Some? && s.value != ""
    ensures r.Some? ==> r == s
  {
    if s.Some? && s.value != "" then s else None
  }

  /** The `set` object for an event: the email, and each name only when it is truthy. */
  function PatchFor(email: string, firstName: Option<string>, lastName: Option<string>): (p: Patch)
    ensures p.email == email
    ensures p.firstName.Some? <==> firstName.Some? && firstName.value != ""
    ensures p.lastName.Some? <==> lastName.Some? && lastName.value != ""
    ensures p.firstName.Some? ==> p.firstName == firstName
    ensures p.lastName.Some? ==> p.lastName == lastName
  {
    Patch(email, Truthy(firstName), Truthy(lastName))
  }

  function ApplyPatch(u: User, p: Patch): User {
    u.(email := p.email, firstName := p.firstName.GetOr(u.firstName), lastName := p.lastName.GetOr(u.lastName))
  }

  /** The rows after the update: matching rows patched, the others as they were. */
  function UpdateWhere(t: seq<User>, clerkId: string, p: Patch): (r: seq<User>)
    ensures |r| == |t|
  {
    if t == [] then []
    else [if t[0].clerkUserId == clerkId then ApplyPatch(t[0], p) else t[0]] + UpdateWhere(t[1..], clerkId, p)
  }

  lemma {:induction false} UpdateWhereAt(t: seq<User>, clerkId: string, p: Patch, i: int)
    requires 0 <= i < |t|
    ensures UpdateWhere(t, clerkId, p)[i] == if t[i].clerkUserId == clerkId then ApplyPatch(t[i], p) else t[i]
  {
    if i > 0 {
      UpdateWhereAt(t[1..], clerkId, p, i - 1);
    }
  }

  /** Some row other than the one keyed by `clerkId` already has `email`. */
  predicate EmailTakenByOther(t: seq<User>, clerkId: string, email: string) {
    exists j :: 0 <= j < |t| && t[j].clerkUserId != clerkId && t[j].email == email
  }

  /** The UPDATE statement: the new rows, or refused (None) when they would break a unique column. */
  function Update(t: seq<User>, clerkId: string, p: Patch): (r: Option<seq<User>>)
    ensures r.Some? ==> r.value == UpdateWhere(t, clerkId, p) && SatisfiesConstraints(r.value)
  {
    var t' := UpdateWhere(t, clerkId, p);
    if SatisfiesConstraints(t') then Some(t') else None
  }

  /**
   * The partial-update rule row by row: the matching row takes the new email and
   * each non-empty name; its id, its Clerk id and every other row are untouched.
   */
  lemma PartialUpdate(t: seq<User>, clerkId: string, email: string,
                      firstName: Option<string>, lastName: Option<string>, i: int)
    requires 0 <= i < |t|
    ensures var u := UpdateWhere(t, clerkId, PatchFor(email, firstName, lastName))[i];
      && u.id == t[i].id
      && u.clerkUserId == t[i].clerkUserId
      && (t[i].clerkUserId != clerkId ==> u == t[i])
      && (t[i].clerkUserId == clerkId ==>
            && u.email == email
            && u.firstName == (if firstName.Some? && firstName.value != "" then firstName.value else t[i].firstName)
            && u.lastName == (if lastName.Some? && lastName.value != "" then lastName.value else t[i].lastName))
  {
    UpdateWhereAt(t, clerkId, PatchFor(email, firstName, lastName), i);
  }

  /** With no row for `clerkId` the update changes nothing. */
  lemma {:induction false} UpdateWhereNoMatch(t: seq<User>, clerkId: string, p: Patch)
    requires !HasClerkId(t, clerkId)
    ensures UpdateWhere(t, clerkId, p) == t
  {
    if t != [] {
      assert t[0].clerkUserId != clerkId;
      assert !HasClerkId(t[1..], clerkId) by {
        forall i | 0 <= i < |t[1..]| ensures t[1..][i].clerkUserId != clerkId {
          assert t[1..][i] == t[i + 1];
        }
      }
      UpdateWhereNoMatch(t[1..], clerkId, p);
    }
  }

  /** Applying the same `user.updated` patch twice leaves the rows as applying it once. */
  lemma {:induction false} UpdateWhereIdempotent(t: seq<User>, clerkId: string, p: Patch)
    ensures UpdateWhere(UpdateWhere(t, clerkId, p), clerkId, p) == UpdateWhere(t, clerkId, p)
  {
    var once := UpdateWhere(t, clerkId, p);
    var twice := UpdateWhere(once, clerkId, p);
    forall i | 0 <= i < |t| ensures twice[i] == once[i] {
      UpdateWhereAt(t, clerkId, p, i);
      UpdateWhereAt(once, clerkId, p, i);
    }
  }

  /**
   * On a table that meets its constraints, the update is refused exactly when a row
   * matches and some other row already holds the new email.
   */
  lemma UpdateAcceptedIff(t: seq<User>, clerkId: string, p: Patch)
    requires SatisfiesConstraints(t)
    ensures Update(t, clerkId, p).Some? <==> !(HasClerkId(t, clerkId) && EmailTakenByOther(t, clerkId, p.email))
  {
    var t' := UpdateWhere(t, clerkId, p);
    if HasClerkId(t, clerkId) && EmailTakenByOther(t, clerkId, p.email) {
      var m :| 0 <= m < |t| && t[m].clerkUserId == clerkId;
      var j :| 0 <= j < |t| && t[j].clerkUserId != clerkId && t[j].email == p.email;
      UpdateWhereAt(t, clerkId, p, m);
      UpdateWhereAt(t, clerkId, p, j);
      assert t'[m].email == t'[j].email && m != j;
      if m < j { assert !UniqueEmails(t'); } else { assert !UniqueEmails(t'); }
    } else {
      forall i, j | 0 <= i < j < |t'|
        ensures t'[i].id != t'[j].id && t'[i].clerkUserId != t'[j].clerkUserId && t'[i].email != t'[j].email
      {
        UpdateWhereAt(t, clerkId, p, i);
        UpdateWhereAt(t, clerkId, p, j);
      }
    }
  }

  /** Applying the same accepted UPDATE statement twice is the same as applying it once. */
  lemma UpdateIdempotent(t: seq<User>, clerkId: string, p: Patch)
    requires Update(t, clerkId, p).Some?
    ensures Update(Update(t, clerkId, p).value, clerkId, p) == Update(t, clerkId, p)
  {
    UpdateWhereIdempotent(t, clerkId, p);
  }

  /** The position of the first row keyed by `clerkId` (the row `.returning()` reports first). */
  function FirstIndexOf(t: seq<User>, clerkId: string): (r: Option<nat>)
    ensures r.None? <==> !HasClerkId(t, clerkId)
    ensures r.Some? ==> r.value < |t| && t[r.value].clerkUserId == clerkId
                        && forall k :: 0 <= k < r.value ==> t[k].clerkUserId != clerkId
  {
    if t == [] then None
    else if t[0].clerkUserId == clerkId then Some(0)
    else match FirstIndexOf(t[1..], clerkId)
      case None => None
      case Some(k) => Some(k + 1)
  }

  /** The update never rewrites a row's id or Clerk id. */
  lemma UpdateWhereKeepsKeys(t: seq<User>, clerkId: string, p: Patch)
    ensures var t' := UpdateWhere(t, clerkId, p);
      forall i :: 0 <= i < |t| ==> t'[i].id == t[i].id && t'[i].clerkUserId == t[i].clerkUserId
  {
  }

  /** An accepted update keeps the table invariant. */
  lemma UpdateValid(t: seq<User>, clerkId: string, p: Patch)
    requires ValidTable(t) && Update(t, clerkId, p).Some?
    ensures ValidTable(Update(t, clerkId, p).value)
  {
    UpdateWhereKeepsKeys(t, clerkId, p);
  }

  /** Since the keys stay put, the first matching row is at the same position after the update. */
  lemma UpdateKeepsPosition(t: seq<User>, clerkId: string, p: Patch)
    ensures FirstIndexOf(UpdateWhere(t, clerkId, p), clerkId) == FirstIndexOf(t, clerkId)
  {
  }

  // ---------------------------------------------------------------------------
  // DELETE FROM users WHERE clerk_user_id = ?
  // ---------------------------------------------------------------------------

  /** The rows that survive the delete, in their order. */
  function DeleteWhere(t: seq<User>, clerkId: string): (r: seq<User>)
    ensures |r| <= |t|
  {
    if t == [] then []
    else (if t[0].clerkUserId == clerkId then [] else [t[0]]) + DeleteWhere(t[1..], clerkId)
  }

  /** The delete removes exactly the rows keyed by `clerkId` and keeps every other row. */
  lemma {:induction false} DeleteWhereMembers(t: seq<User>, clerkId: string)
    ensures forall u :: u in DeleteWhere(t, clerkId) <==> u in t && u.clerkUserId != clerkId
  {
    if t != [] {
      DeleteWhereMembers(t[1..], clerkId);
      assert forall u :: u in t <==> u == t[0] || u in t[1..];
    }
  }

  /** Deleting a Clerk id that no row carries is a no-op. */
  lemma {:induction false} DeleteWhereAbsent(t: seq<User>, clerkId: string)
    requires !HasClerkId(t, clerkId)
    ensures DeleteWhere(t, clerkId) == t
  {
    if t != [] {
      assert t[0].clerkUserId != clerkId;
      assert !HasClerkId(t[1..], clerkId) by {
        forall i | 0 <= i < |t[1..]| ensures t[1..][i].clerkUserId != clerkId {
          assert t[1..][i] == t[i + 1];
        }
      }
      DeleteWhereAbsent(t[1..], clerkId);
    }
  }

  /** On a valid table the delete removes one row when the Clerk id is present and none otherwise. */
  lemma {:induction false} DeleteWhereCount(t: seq<User>, clerkId: string)
    requires UniqueClerkIds(t)
    ensures |DeleteWhere(t, clerkId)| == |t| - (if HasClerkId(t, clerkId) then 1 else 0)
  {
    if t != [] {
      var rest := t[1..];
      assert UniqueClerkIds(rest) by {
        forall i, j | 0 <= i < j < |rest| ensures rest[i].clerkUserId != rest[j].clerkUserId {
          assert rest[i] == t[i + 1] && rest[j] == t[j + 1];
        }
      }
      DeleteWhereCount(rest, clerkId);
      assert HasClerkId(rest, clerkId) ==> HasClerkId(t, clerkId) by {
        if HasClerkId(rest, clerkId) {
          var i :| 0 <= i < |rest| && rest[i].clerkUserId == clerkId;
          assert t[i + 1] == rest[i];
        }
      }
      if t[0].clerkUserId == clerkId {
        assert !HasClerkId(rest, clerkId) by {
          forall i | 0 <= i < |rest| ensures rest[i].clerkUserId != clerkId {
            assert rest[i] == t[i + 1];
          }
        }
      } else {
        assert HasClerkId(t, clerkId) ==> HasClerkId(rest, clerkId) by {
          if HasClerkId(t, clerkId) {
            var i :| 0 <= i < |t| && t[i].clerkUserId == clerkId;
            assert rest[i - 1] == t[i];
          }
        }
      }
    }
  }

  /** Prepending a row whose keys occur nowhere in a valid table keeps it valid. */
  lemma ConsValid(x: User, s: seq<User>)
    requires ValidTable(s) && IsGeneratedId(x.id)
    requires forall u :: u in s ==> u.id != x.id && u.clerkUserId != x.clerkUserId && u.email != x.email
    ensures ValidTable([x] + s)
  {
  }

  /** The delete keeps the table invariant. */
  lemma {:induction false} DeleteWhereValid(t: seq<User>, clerkId: string)
    requires ValidTable(t)
    ensures ValidTable(DeleteWhere(t, clerkId))
  {
    if t != [] {
      var rest := t[1..];
      assert ValidTable(rest) by {
        forall i, j | 0 <= i < j < |rest|
          ensures rest[i].id != rest[j].id && rest[i].clerkUserId != rest[j].clerkUserId && rest[i].email != rest[j].email
        {
          assert rest[i] == t[i + 1] && rest[j] == t[j + 1];
        }
        forall i | 0 <= i < |rest| ensures IsGeneratedId(rest[i].id) {
          assert rest[i] == t[i + 1];
        }
      }
      DeleteWhereValid(rest, clerkId);
      if t[0].clerkUserId != clerkId {
        DeleteWhereMembers(rest, clerkId);
        forall u | u in DeleteWhere(rest, clerkId)
          ensures u.id != t[0].id && u.clerkUserId != t[0].clerkUserId && u.email != t[0].email
        {
          var k :| 0 <= k < |rest| && rest[k] == u;
          assert t[k + 1] == u;
        }
        ConsValid(t[0], DeleteWhere(rest, clerkId));
      }
    }
  }

  // ---------------------------------------------------------------------------
  // The handler
  // ---------------------------------------------------------------------------

  /** The server side of the procedure: the `users` table and the calls made to Clerk. */
  class Server {
    var users: seq<User>
    /** Every `updateUser` call attempted, in order, whether or not Clerk accepted it. */
    ghost var clerkCalls: seq<ClerkCall>

    ghost predicate Valid()
      reads this
    {
      ValidTable(users)
    }

    constructor ()
      ensures Valid() && users == [] && clerkCalls == []
    {
      users := [];
      clerkCalls := [];
    }

    /**
     * What `user.created` does: without an email nothing happens; a taken key is refused;
     * otherwise the row is inserted, one `updateUser` call is made with the new id, and the
     * request fails if that call fails, with the row left in place.
     */
    twostate predicate CreatedEffect(id: string, emailAddresses: seq<string>, firstName: Option<string>,
                                     lastName: Option<string>, nanoid: string, clerkSucceeds: bool, r: Response)
      reads this
    {
      var email := PrimaryEmail(emailAddresses);
      if email.None? then r == Failure(NoEmailFound) && unchanged(this)
      else
        var row := NewUser(GenerateId(nanoid), id, email.value, firstName, lastName);
        if KeyTaken(old(users), row) then r == Failure(UniqueConstraintFailed) && unchanged(this)
        else
          && users == old(users) + [row]
          && clerkCalls == old(clerkCalls) + [UpdateExternalId(id, row.id)]
          && r == (if clerkSucceeds then Success("User " + email.value + " created") else Failure(ClerkUpdateFailed))
    }

    /**
     * What `user.updated` does: without an email nothing happens; with no row for the Clerk id
     * the statement changes nothing and the request fails on `updatedUser.id`; an email held by
     * another row is refused; otherwise the row is patched, and Clerk is called only when the
     * row's id differs from the Clerk id.
     */
    twostate predicate UpdatedEffect(id: string, emailAddresses: seq<string>, firstName: Option<string>,
                                     lastName: Option<string>, clerkSucceeds: bool, r: Response)
      reads this
    {
      var email := PrimaryEmail(emailAddresses);
      if email.None? then r == Failure(NoEmailFound) && unchanged(this)
      else if !HasClerkId(old(users), id) then r == Failure(UpdatedUserUndefined) && unchanged(this)
      else if EmailTakenByOther(old(users), id, email.value) then r == Failure(UniqueConstraintFailed) && unchanged(this)
      else
        var rowId := old(users)[FirstIndexOf(old(users), id).value].id;
        && users == UpdateWhere(old(users), id, PatchFor(email.value, firstName, lastName))
        && clerkCalls == old(clerkCalls) + (if rowId != id then [UpdateExternalId(id, rowId)] else [])
        && r == (if rowId != id && !clerkSucceeds then Failure(ClerkUpdateFailed)
                 else Success("User " + email.value + " updated"))
    }

    /** What `user.deleted` does: with a non-empty id, delete its rows; otherwise fail. */
    twostate predicate DeletedEffect(deletedId: Option<string>, r: Response)
      reads this
    {
      if deletedId.Some? && deletedId.value != "" then
        users == DeleteWhere(old(users), deletedId.value) && clerkCalls == old(clerkCalls)
        && r == Success("User " + deletedId.value + " deleted")
      else r == Failure(NoUserIdFound) && unchanged(this)
    }

    /** The `user.created` branch, after verification. */
    method OnCreated(id: string, emailAddresses: seq<string>, firstName: Option<string>, lastName: Option<string>,
                     nanoid: string, clerkSucceeds: bool) returns (r: Response)
      requires Valid()
      modifies this
      ensures Valid()
      ensures CreatedEffect(id, emailAddresses, firstName, lastName, nanoid, clerkSucceeds, r)
    {
      var email := PrimaryEmail(emailAddresses);
      if email.None? {
        return Failure(NoEmailFound);
      }
      var row := NewUser(GenerateId(nanoid), id, email.value, firstName, lastName);
      InsertAcceptedIff(users, row);
      var inserted := Insert(users, row);
      if inserted.None? {
        return Failure(UniqueConstraintFailed);
      }
      users := inserted.value;
      // The insert is committed before Clerk is called and is not undone if the call throws.
      clerkCalls := clerkCalls + [UpdateExternalId(id, row.id)];
      if !clerkSucceeds {
        return Failure(ClerkUpdateFailed);
      }
      return Success("User " + email.value + " created");
    }

    /** The `user.updated` branch, after verification. */
    method OnUpdated(id: string, emailAddresses: seq<string>, firstName: Option<string>, lastName: Option<string>,
                     clerkSucceeds: bool) returns (r: Response)
      requires Valid()
      modifies this
      ensures Valid()
      ensures UpdatedEffect(id, emailAddresses, firstName, lastName, clerkSucceeds, r)
    {
      var email := PrimaryEmail(emailAddresses);
      if email.None? {
        return Failure(NoEmailFound);
      }
      var patch := PatchFor(email.value, firstName, lastName);
      UpdateAcceptedIff(users, id, patch);
      var updated := Update(users, id, patch);
      if updated.None? {
        return Failure(UniqueConstraintFailed);
      }
      UpdateValid(users, id, patch);
      UpdateKeepsPosition(users, id, patch);
      if !HasClerkId(users, id) {
        UpdateWhereNoMatch(users, id, patch);
      }
      var returned := FirstIndexOf(updated.value, id);
      users := updated.value;
      if returned.None? {
        // Zero rows updated: the log call dereferences `updatedUser` before the guard.
        return Failure(UpdatedUserUndefined);
      }
      var updatedUser := users[returned.value];
      UpdateWhereAt(old(users), id, patch, returned.value);
      if updatedUser.id != id {
        clerkCalls := clerkCalls + [UpdateExternalId(id, updatedUser.id)];
        if !clerkSucceeds {
          return Failure(ClerkUpdateFailed);
        }
      }
      return Success("User " + email.value + " updated");
    }

    /** The `user.deleted` branch, after verification. */
    method OnDeleted(deletedId: Option<string>) returns (r: Response)
      requires Valid()
      modifies this
      ensures Valid()
      ensures DeletedEffect(deletedId, r)
    {
      if deletedId.Some? && deletedId.value != "" {
        DeleteWhereValid(users, deletedId.value);
        users := DeleteWhere(users, deletedId.value);
        return Success("User " + deletedId.value + " deleted");
      }
      return Failure(NoUserIdFound);
    }

    /**
     * `webhooks.clerk`. `verify` stands for Svix's `wh.verify` (the event, or none
     * when it throws), `nanoid` for the random part of a new row's id, and
     * `clerkSucceeds` for whether the `updateUser` call, if one is made, returns.
     */
    method HandleClerk(secret: Option<string>, body: string, headers: SvixHeaders,
                       verify: (string, string, SvixHeaders) -> Option<Event>,
                       nanoid: string, clerkSucceeds: bool) returns (r: Response)
      requires Valid()
      modifies this
      ensures Valid()
      // Nothing is verified, parsed or written without a secret.
      ensures !SecretConfigured(secret) ==> r == Failure(MissingWebhookSecret) && unchanged(this)
      // A delivery Svix rejects changes nothing.
      ensures SecretConfigured(secret) && verify(secret.value, body, headers).None? ==>
                r == Failure(VerificationFailed) && unchanged(this)
      ensures var ev := Verified(secret, body, headers, verify);
        ev.Some? && ev.value.UserCreated? ==>
          CreatedEffect(ev.value.id, ev.value.emailAddresses, ev.value.firstName, ev.value.lastName, nanoid, clerkSucceeds, r)
      ensures var ev := Verified(secret, body, headers, verify);
        ev.Some? && ev.value.UserUpdated? ==>
          UpdatedEffect(ev.value.id, ev.value.emailAddresses, ev.value.firstName, ev.value.lastName, clerkSucceeds, r)
      ensures var ev := Verified(secret, body, headers, verify);
        ev.Some? && ev.value.UserDeleted? ==> DeletedEffect(ev.value.deletedId, r)
      ensures var ev := Verified(secret, body, headers, verify);
        ev.Some? && ev.value.OtherEvent? ==> r == Success("Event processed") && unchanged(this)
      // Only a verified created/updated/deleted event can write to the table.
      ensures users != old(users) ==>
                var ev := Verified(secret, body, headers, verify);
                ev.Some? && !ev.value.OtherEvent?
    {
      if !SecretConfigured(secret) {
        return Failure(MissingWebhookSecret);
      }
      var evt := verify(secret.value, body, headers);
      if evt.None? {
        return Failure(VerificationFailed);
      }
      match evt.value
      case UserCreated(id, emailAddresses, firstName, lastName) =>
        r := OnCreated(id, emailAddresses, firstName, lastName, nanoid, clerkSucceeds);
      case UserUpdated(id, emailAddresses, firstName, lastName) =>
        r := OnUpdated(id, emailAddresses, firstName, lastName, clerkSucceeds);
      case UserDeleted(deletedId) =>
        r := OnDeleted(deletedId);
      case OtherEvent =>
        r := Success("Event processed");
    }
  }
}
