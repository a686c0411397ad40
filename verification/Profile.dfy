/** The profile update of backend/app/services/account_service.py and the endpoint that commits it. */
module Profile {
  import opened Prelude
  import opened Database
  import opened Revocation

  /** The fields of the request that are set and not null. */
  datatype Patch = Patch(displayName: Option<string>, email: Option<string>)

  datatype ProfileOutcome = Unauthorized | ProfileSaved(userId: Id) | ProfileFailed

  function Patched(u: User, p: Patch): User {
    var named := if p.displayName.Some? then u.(displayName := p.displayName.value) else u;
    if p.email.Some? then named.(email := p.email.value, emailVerified := false) else named
  }

  /** PATCH /account. */
  function UpdateProfile(t: Tables, bearer: Bearer, p: Patch, commit: Fate): (Tables, ProfileOutcome) {
    match AuthenticateRequest(t, bearer)
    case None => (t, Unauthorized)
    case Some(uid) =>
      var user := Patched(t.users[uid], p);
      if !commit.NotExecuted? && AddressFree(t.users, uid, user.email)
      then (t.(users := t.users[uid := user]), if commit.Answered? then ProfileSaved(uid) else ProfileFailed)
      else (t, ProfileFailed)
  }

  /** The unique address is the one constraint an update can violate. */
  lemma PatchCommitsIffAddressFree(t: Tables, uid: Id, user: User)
    requires Constraints(t) && uid in t.users
    ensures Constraints(t.(users := t.users[uid := user])) <==> AddressFree(t.users, uid, user.email)
  {
    UniqueIffAddressFree(t.users, uid, user);
  }

  method ApplyProfileUpdate(user: User, p: Patch) returns (after: User)
    ensures after == Patched(user, p)
  {
    after := user;
    if p.displayName.Some? {
      after := after.(displayName := p.displayName.value);
    }
    if p.email.Some? {
      after := after.(email := p.email.value);
      after := after.(emailVerified := false);
    }
  }

  method PatchAccount(db: Session, bearer: Bearer, p: Patch, commit: Fate) returns (o: ProfileOutcome)
    requires db.Valid()
    modifies db
    ensures db.Valid()
    ensures (db.committed, o) == UpdateProfile(old(db.committed), bearer, p, commit)
  {
    var current := AuthenticateRequest(db.pending, bearer);
    if current.None? {
      return Unauthorized;
    }
    var uid := current.value;
    var user := ApplyProfileUpdate(db.pending.users[uid], p);
    db.pending := db.pending.(users := db.pending.users[uid := user]);
    PatchCommitsIffAddressFree(db.committed, uid, user);
    var ok := db.Commit(commit);
    return if ok then ProfileSaved(uid) else ProfileFailed;
  }

  /** The update reaches the table. */
  predicate TakesEffect(t: Tables, bearer: Bearer, p: Patch, commit: Fate) {
    var current := AuthenticateRequest(t, bearer);
    && current.Some? && !commit.NotExecuted?
    && var email := if p.email.Some? then p.email.value else t.users[current.value].email;
       forall v | v in t.users && v != current.value :: t.users[v].email != email
  }

  /** What an update sets, and what it leaves alone: other accounts, and everything but name and address. A new
      address is not verified. An update that names no address needs only the server. */
  lemma ProfileUpdateIsConfined(t: Tables, bearer: Bearer, p: Patch, commit: Fate)
    requires Constraints(t)
    ensures var (t1, o) := UpdateProfile(t, bearer, p, commit);
            && Constraints(t1)
            && (!TakesEffect(t, bearer, p, commit) ==> t1 == t && !o.ProfileSaved?)
            && (TakesEffect(t, bearer, p, commit) ==>
                  var uid := AuthenticateRequest(t, bearer).value;
                  var a, b := t.users[uid], t1.users[uid];
                  && t1 == t.(users := t.users[uid := b]) && a.deletedAt.None?
                  && b == a.(displayName := b.displayName, email := b.email, emailVerified := b.emailVerified)
                  && b.displayName == (if p.displayName.Some? then p.displayName.value else a.displayName)
                  && b.email == (if p.email.Some? then p.email.value else a.email)
                  && b.emailVerified == (a.emailVerified && p.email == None)
                  && (o == ProfileSaved(uid) <==> commit.Answered?))
            && (AuthenticateRequest(t, bearer).Some? && p.email.None? ==>
                  (TakesEffect(t, bearer, p, commit) <==> !commit.NotExecuted?))
  {
    var current := AuthenticateRequest(t, bearer);
    if current.Some? {
      var user := Patched(t.users[current.value], p);
      PatchCommitsIffAddressFree(t, current.value, user);
      if p.email.None? {
        SameEmailsStayUnique(t.users, t.users[current.value := user]);
      }
    }
  }
}
