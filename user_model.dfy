/**
 * The User document of the Mongoose schema: `email` (required, unique, trimmed,
 * lower-cased), `password` (required) and `notes`, an ordered list of Note ids.
 */
module UserModel {
  import opened Wrappers
  import Text

  type UserId = string
  type NoteId = string

  datatype User = User(id: UserId, email: string, password: string, notes: seq<NoteId>)

  /**
   * The email Mongoose stores, and looks up, for the given input: the schema's
   * `trim` and `lowercase` setters applied. The result has no surrounding
   * white space and no upper-case letter.
   */
  function CastEmail(raw: string): (e: string)
    ensures |e| <= |raw|
    ensures exists a, b :: Text.TrimmedRun(raw, a, b) && e == Text.ToLower(raw[a..b])
    ensures e == [] || (!Text.IsTrimmable(e[0]) && !Text.IsTrimmable(e[|e| - 1]))
    ensures forall i :: 0 <= i < |e| ==> !Text.IsUpper(e[i])
  {
    Text.ToLower(Text.Trim(raw))
  }

  /** Casting a stored email again changes nothing: every stored email is already normalised. */
  lemma CastEmailIdempotent(raw: string)
    ensures CastEmail(CastEmail(raw)) == CastEmail(raw)
  {
    var t := Text.Trim(raw);
    Text.TrimLowerCommute(t);
    Text.TrimIdempotent(raw);
    Text.LowerIdempotent(t);
  }

  /** Setting `trim` before or after `lowercase` in the schema gives the same stored email. */
  lemma SetterOrderIrrelevant(raw: string)
    ensures CastEmail(raw) == Text.Trim(Text.ToLower(raw))
  {
    Text.TrimLowerCommute(raw);
  }

  /** The `required` validators: a missing or empty string fails them. */
  predicate HasRequiredFields(u: User)
  {
    u.email != "" && u.password != ""
  }

  /** The form the `trim` and `lowercase` setters leave an email in: no surrounding white space, no upper-case letter. */
  predicate Normalised(e: string)
  {
    && (e == [] || (!Text.IsTrimmable(e[0]) && !Text.IsTrimmable(e[|e| - 1])))
    && forall i :: 0 <= i < |e| ==> !Text.IsUpper(e[i])
  }

  /** An email is in normal form exactly when the setters leave it as it is. */
  lemma NormalisedIffFixed(e: string)
    ensures Normalised(e) <==> CastEmail(e) == e
  {
    if Normalised(e) {
      assert Text.TrimStart(e) == e;
      assert Text.TrimEnd(e) == e;
      assert Text.ToLower(e) == e;
    }
  }

  /** A document the schema accepts: both required fields present, the email as the setters leave it. */
  predicate WellFormed(u: User)
  {
    HasRequiredFields(u) && Normalised(u.email)
  }

  /** The unique index on `email`: no two users share one. */
  predicate EmailsUnique(users: map<UserId, User>)
  {
    forall a, b :: a in users && b in users && users[a].email == users[b].email ==> a == b
  }

  /** The users collection, keyed by `_id`, obeying the schema. */
  predicate Table(users: map<UserId, User>)
  {
    && EmailsUnique(users)
    && forall id :: id in users ==> Stored(id, users[id])
  }

  /** A document stored under `id`: a non-empty key that matches its `_id`, and a schema-valid body. */
  predicate Stored(id: UserId, u: User)
  {
    id != "" && u.id == id && WellFormed(u)
  }

  /** `User.findOne({ email })`: the query value goes through the same setters as a stored one. */
  function FindByEmail(users: map<UserId, User>, email: string): (r: Option<UserId>)
    requires EmailsUnique(users)
    ensures r.Some? ==> r.value in users && users[r.value].email == CastEmail(email)
    ensures r.None? ==> forall id :: id in users ==> users[id].email != CastEmail(email)
  {
    var key := CastEmail(email);
    if exists id :: id in users && users[id].email == key then
      var id :| id in users && users[id].email == key;
      Some(id)
    else
      None
  }

  /** Inserting a well-formed user whose email is not taken keeps the collection valid. */
  lemma InsertKeepsTable(users: map<UserId, User>, u: User)
    requires Table(users)
    requires u.id != "" && u.id !in users && WellFormed(u)
    requires forall id :: id in users ==> users[id].email != u.email
    ensures Table(users[u.id := u])
  {
    InsertKeepsUnique(users, u);
  }

  /** A user whose email is not taken can join without breaking the unique index. */
  lemma InsertKeepsUnique(users: map<UserId, User>, u: User)
    requires EmailsUnique(users) && u.id !in users
    requires forall id :: id in users ==> users[id].email != u.email
    ensures EmailsUnique(users[u.id := u])
  {
    var users' := users[u.id := u];
    forall a, b | a in users' && b in users' && users'[a].email == users'[b].email
      ensures a == b
    {
      if a != u.id && b != u.id {
        assert users'[a] == users[a] && users'[b] == users[b];
      }
    }
  }

  /** With unique emails, the lookup finds the one user whose stored email is the cast query. */
  lemma FindByEmailFinds(users: map<UserId, User>, id: UserId, query: string)
    requires EmailsUnique(users) && id in users && users[id].email == CastEmail(query)
    ensures FindByEmail(users, query) == Some(id)
  {
  }

  /** Replacing one user's list of note ids leaves the collection valid: the list is not constrained by the schema. */
  lemma SetNotesKeepsTable(users: map<UserId, User>, id: UserId, notes: seq<NoteId>)
    requires Table(users) && id in users
    ensures Table(users[id := users[id].(notes := notes)])
  {
    var users' := users[id := users[id].(notes := notes)];
    SetNotesKeepsEmails(users, id, notes);
    SameEmailsKeepUnique(users, users');
    SetNotesKeepsStored(users, id, notes, users');
  }

  lemma SetNotesKeepsEmails(users: map<UserId, User>, id: UserId, notes: seq<NoteId>)
    requires id in users
    ensures users[id := users[id].(notes := notes)].Keys == users.Keys
    ensures forall a :: a in users ==> users[id := users[id].(notes := notes)][a].email == users[a].email
  {
  }

  lemma SetNotesKeepsStored(users: map<UserId, User>, id: UserId, notes: seq<NoteId>, users': map<UserId, User>)
    requires id in users && users' == users[id := users[id].(notes := notes)]
    requires forall a :: a in users ==> Stored(a, users[a])
    ensures forall a :: a in users' ==> Stored(a, users'[a])
  {
    NotesIrrelevantToSchema(id, users[id], notes);
  }

  /** The note list is not part of what the schema checks. */
  lemma NotesIrrelevantToSchema(id: UserId, u: User, notes: seq<NoteId>)
    requires Stored(id, u)
    ensures Stored(id, u.(notes := notes))
  {
  }

  /** Two collections over the same ids with the same emails agree on uniqueness. */
  lemma SameEmailsKeepUnique(users: map<UserId, User>, users': map<UserId, User>)
    requires EmailsUnique(users)
    requires users'.Keys == users.Keys
    requires forall a :: a in users ==> users'[a].email == users[a].email
    ensures EmailsUnique(users')
  {
  }
}
