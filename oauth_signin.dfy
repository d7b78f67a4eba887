/**
 * The OAuth sign-in endpoint: after validating the payload it finds the user
 * by email or creates one, updates only the fields that changed, and links a
 * provider account unless one is already linked, all in one transaction.
 *
 * `slugify` and the URL check are parameters; the id of a newly created user
 * is a parameter that must be fresh. Creating a user whose slugified username
 * is empty fails the schema's `required` check on `username`, which aborts
 * the transaction before anything is written.
 */
module OAuthSignIn {
  import opened Model
  import opened Database
  import Validation
  import VoteAction

  /** `User.findOne({ email })`; with the unique index there is at most one. */
  ghost function UserWithEmail(users: map<Id, User>, email: string): (r: Option<Id>)
    ensures r.Some? ==> r.value in users && users[r.value].email == email
    ensures r.None? <==> !EmailTaken(users, email)
  {
    if EmailTaken(users, email) then
      var id :| id in users && users[id].email == email;
      Some(id)
    else None
  }

  lemma UserWithEmailUnique(users: map<Id, User>, email: string, id: Id)
    requires UniqueEmails(users) && id in users && users[id].email == email
    ensures UserWithEmail(users, email) == Some(id)
  {
  }

  /** `Account.findOne({ userId, provider, providerAccountId })` finds a document. */
  predicate HasAccount(accounts: seq<Account>, userId: Id, provider: string, providerAccountId: string) {
    exists i :: 0 <= i < |accounts| && accounts[i].userId == userId
      && accounts[i].provider == provider && accounts[i].providerAccountId == providerAccountId
  }

  /**
   * The update of an existing user: `name` is set when it differs; `image` is
   * set when it differs and the payload has one (a `$set` of `undefined` is
   * dropped, so a payload without an image keeps the stored one).
   */
  function Refreshed(u: User, p: Validation.OAuthPayload): (r: User)
    ensures r.name == p.name
    ensures r.image == if p.image.Some? then p.image else u.image
    ensures r == u.(name := r.name, image := r.image)
  {
    var named := if u.name != p.name then u.(name := p.name) else u;
    if u.image != p.image && p.image.Some? then named.(image := p.image) else named
  }

  /** A refresh with the values it has just written changes nothing. */
  lemma RefreshedIdempotent(u: User, p: Validation.OAuthPayload)
    ensures Refreshed(Refreshed(u, p), p) == Refreshed(u, p)
  {
  }

  /**
   * `User.create` is reached (no user has the email) with a username that
   * slugifies to the empty string, which `username: { required: true }`
   * rejects.
   */
  predicate UsernameRejected(users: map<Id, User>, p: Validation.OAuthPayload, slugify: string -> string) {
    !EmailTaken(users, p.email) && slugify(p.username) == []
  }

  /** The error the rejected `User.create` raises. */
  const UsernameRequired := ValidationError("username")

  /** The account the sign-in links for user `uid`. */
  function LinkedAccount(uid: Id, p: Validation.OAuthPayload): Account {
    Account(uid, p.name, p.image, None, p.provider, p.providerAccountId)
  }

  /**
   * The users after the find-or-create: a new user with a slugified username
   * when no user has the email, otherwise that user refreshed. Emails stay
   * unique and the email now belongs to a user.
   */
  ghost function UsersAfter(users: map<Id, User>, p: Validation.OAuthPayload, slugify: string -> string,
                            newUserId: Id): (r: map<Id, User>)
    requires newUserId !in users && UniqueEmails(users) && !UsernameRejected(users, p, slugify)
    ensures !EmailTaken(users, p.email) ==> slugify(p.username) != [] && r == users[newUserId := NewUser(p.name, slugify(p.username), p.email, p.image)]
    ensures forall id :: id in users && users[id].email == p.email ==> r == users[id := Refreshed(users[id], p)]
    ensures UniqueEmails(r) && EmailTaken(r, p.email)
  {
    var existing := UserWithEmail(users, p.email);
    var uid := if existing.Some? then existing.value else newUserId;
    var r :=
      if existing.Some? then users[uid := Refreshed(users[uid], p)]
      else users[newUserId := NewUser(p.name, slugify(p.username), p.email, p.image)];
    assert UniqueEmails(r) by {
      forall a, b | a in r && b in r && r[a].email == r[b].email ensures a == b {
        if a != uid && b != uid { assert users[a].email == users[b].email; }
      }
    }
    assert r[uid].email == p.email;
    r
  }

  /** `Account.findOne(...)` then `Account.create(...)` when none was found. */
  function AccountsAfter(accounts: seq<Account>, uid: Id, p: Validation.OAuthPayload): (r: seq<Account>)
    ensures r == accounts || r == accounts + [LinkedAccount(uid, p)]
    ensures r == accounts <==> HasAccount(accounts, uid, p.provider, p.providerAccountId)
    ensures HasAccount(r, uid, p.provider, p.providerAccountId)
  {
    if HasAccount(accounts, uid, p.provider, p.providerAccountId) then accounts
    else
      var r := accounts + [LinkedAccount(uid, p)];
      assert r[|accounts|] == LinkedAccount(uid, p);
      r
  }

  /**
   * The sign-in as one step. `newUserId` is the id a created user gets; the
   * unique index on `email` is assumed to hold, as the database enforces it.
   */
  ghost function OAuthSignedIn(db: Db, p: Validation.OAuthPayload, isUrl: string -> bool, slugify: string -> string,
                               newUserId: Id): (r: Step<()>)
    requires newUserId !in db.users && UniqueEmails(db.users)
    ensures r.result.Ok? <==> Validation.OAuthIssues(p, isUrl) == [] && !UsernameRejected(db.users, p, slugify)
    ensures Validation.OAuthIssues(p, isUrl) == [] && UsernameRejected(db.users, p, slugify) ==>
      r.result == Err(UsernameRequired)
    ensures r.result.Err? ==> r.db == db
    ensures r.result.Ok? ==>
      && !UsernameRejected(db.users, p, slugify)
      && r.db == db.(users := r.db.users, accounts := r.db.accounts)
      && r.db.users == UsersAfter(db.users, p, slugify, newUserId)
      && UserWithEmail(r.db.users, p.email).Some?
      && r.db.accounts == AccountsAfter(db.accounts, UserWithEmail(r.db.users, p.email).value, p)
  {
    var issues := Validation.OAuthIssues(p, isUrl);
    if issues != [] then Step(db, Err(ValidationError(VoteAction.FirstIssuePath(issues))))
    else if UsernameRejected(db.users, p, slugify) then Step(db, Err(UsernameRequired))
    else
      var users := UsersAfter(db.users, p, slugify, newUserId);
      var uid := UserWithEmail(users, p.email).value;
      Step(db.(users := users, accounts := AccountsAfter(db.accounts, uid, p)), Ok(()))
  }

  /** Signing in again with the same payload changes nothing. */
  lemma SignInIdempotent(db: Db, p: Validation.OAuthPayload, isUrl: string -> bool, slugify: string -> string,
                         id1: Id, id2: Id)
    requires id1 !in db.users && UniqueEmails(db.users)
    requires id2 !in OAuthSignedIn(db, p, isUrl, slugify, id1).db.users
    ensures var r1 := OAuthSignedIn(db, p, isUrl, slugify, id1).db;
      OAuthSignedIn(r1, p, isUrl, slugify, id2).db == r1
  {
    var r1 := OAuthSignedIn(db, p, isUrl, slugify, id1).db;
    if Validation.OAuthIssues(p, isUrl) == [] && !UsernameRejected(db.users, p, slugify) {
      var uid := UserWithEmail(r1.users, p.email).value;
      assert Refreshed(r1.users[uid], p) == r1.users[uid] by {
        if !EmailTaken(db.users, p.email) {
          assert uid == id1 by {
            assert id1 in r1.users && r1.users[id1].email == p.email;
            UserWithEmailUnique(r1.users, p.email, id1);
          }
        } else {
          var id := UserWithEmail(db.users, p.email).value;
          assert r1.users == db.users[id := Refreshed(db.users[id], p)];
          UserWithEmailUnique(r1.users, p.email, id);
          RefreshedIdempotent(db.users[id], p);
        }
      }
      assert r1.users[uid := Refreshed(r1.users[uid], p)] == r1.users;
    }
  }

  /** The sign-in touches only users and accounts, and keeps emails unique. */
  lemma SignInKeepsConsistent(db: Db, p: Validation.OAuthPayload, isUrl: string -> bool, slugify: string -> string,
                              newUserId: Id)
    requires newUserId !in db.users && Consistent(db)
    ensures Consistent(OAuthSignedIn(db, p, isUrl, slugify, newUserId).db)
  {
    var r := OAuthSignedIn(db, p, isUrl, slugify, newUserId).db;
    UsersAndAccountsKeepConsistent(db, r.users, r.accounts);
  }

  /** Replacing users and accounts keeps the invariant as long as emails stay unique. */
  lemma UsersAndAccountsKeepConsistent(db: Db, users: map<Id, User>, accounts: seq<Account>)
    requires Consistent(db) && UniqueEmails(users)
    ensures Consistent(db.(users := users, accounts := accounts))
  {
    var r := db.(users := users, accounts := accounts);
    assert Tallied(r) by {
      forall tt, id, vt | TargetExists(r, tt, id)
        ensures Counter(r, tt, id, vt) == CountVotes(r.votes, id, tt, vt)
      {
        assert TargetExists(db, tt, id) && Counter(r, tt, id, vt) == Counter(db, tt, id, vt);
      }
    }
    assert VotesOnLiveTargets(r) by {
      forall i | 0 <= i < |r.votes| ensures TargetExists(r, r.votes[i].actionType, r.votes[i].actionId) {
        assert TargetExists(db, db.votes[i].actionType, db.votes[i].actionId);
      }
    }
  }

  /**
   * `User.findOne({ email })`, then `User.create(...)` or the update of the
   * changed fields; returns the id of the user signed in, or the error of a
   * `User.create` whose username is empty, with nothing written.
   */
  method FindOrCreateUser(db: Store, p: Validation.OAuthPayload, slugifiedUsername: string, ghost slugify: string -> string,
                          newUserId: Id) returns (res: Result<Id>)
    requires newUserId !in db.users && UniqueEmails(db.users) && slugifiedUsername == slugify(p.username)
    modifies db
    ensures res.Err? <==> UsernameRejected(old(db.users), p, slugify)
    ensures res.Err? ==> res == Err(UsernameRequired) && db.users == old(db.users)
    ensures res.Ok? ==>
      && db.users == UsersAfter(old(db.users), p, slugify, newUserId)
      && res.value in db.users && db.users[res.value].email == p.email
    ensures db.questions == old(db.questions) && db.answers == old(db.answers) && db.votes == old(db.votes)
    ensures db.accounts == old(db.accounts) && db.interactions == old(db.interactions) && db.pending == old(db.pending)
  {
    var existingUser: Option<Id> := None;
    if EmailTaken(db.users, p.email) {
      var id :| id in db.users && db.users[id].email == p.email;
      existingUser := Some(id);
    }
    if existingUser.None? {
      if slugifiedUsername == [] {
        res := Err(UsernameRequired);
        return;
      }
      db.users := db.users[newUserId := NewUser(p.name, slugifiedUsername, p.email, p.image)];
      res := Ok(newUserId);
    } else {
      UpdateChangedFields(db, existingUser.value, p);
      res := Ok(existingUser.value);
    }
  }

  /** Builds `updatedData` from the fields that differ and applies it when it is not empty. */
  method UpdateChangedFields(db: Store, uid: Id, p: Validation.OAuthPayload)
    requires uid in db.users
    modifies db
    ensures db.users == old(db.users)[uid := Refreshed(old(db.users)[uid], p)]
    ensures db.questions == old(db.questions) && db.answers == old(db.answers) && db.votes == old(db.votes)
    ensures db.accounts == old(db.accounts) && db.interactions == old(db.interactions) && db.pending == old(db.pending)
  {
    var u := db.users[uid];
    var setName: Option<string> := None;
    var setImage: Option<Option<string>> := None;
    if u.name != p.name {
      setName := Some(p.name);
    }
    if u.image != p.image {
      setImage := Some(p.image);
    }
    if setName.Some? || setImage.Some? {
      if setName.Some? {
        u := u.(name := setName.value);
      }
      if setImage.Some? && setImage.value.Some? {
        u := u.(image := setImage.value);
      }
      db.users := db.users[uid := u];
    } else {
      assert db.users[uid := Refreshed(db.users[uid], p)] == db.users;
    }
  }

  /**
   * The endpoint inside one transaction: the validation failure and the
   * rejected `User.create` both come before any write, so the abort has
   * nothing to undo.
   */
  method SignInWithOAuth(db: Store, p: Validation.OAuthPayload, isUrl: string -> bool, slugify: string -> string,
                         newUserId: Id) returns (result: Result<()>)
    requires newUserId !in db.users && UniqueEmails(db.users)
    modifies db
    ensures Step(db.Snapshot(), result) == OAuthSignedIn(old(db.Snapshot()), p, isUrl, slugify, newUserId)
  {
    var issues := Validation.OAuthIssues(p, isUrl);
    if issues != [] {
      result := Err(ValidationError(VoteAction.FirstIssuePath(issues)));
      return;
    }
    var slugifiedUsername := slugify(p.username);
    var found := FindOrCreateUser(db, p, slugifiedUsername, slugify, newUserId);
    if found.Err? {
      result := Err(found.error);
      return;
    }
    var uid := found.value;
    UserWithEmailUnique(db.users, p.email, uid);
    if !HasAccount(db.accounts, uid, p.provider, p.providerAccountId) {
      db.accounts := db.accounts + [LinkedAccount(uid, p)];
    }
    result := Ok(());
  }
}
