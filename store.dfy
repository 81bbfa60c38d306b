/**
 * The document database the controllers work on: the users collection, the
 * notes collection, and the Note document.
 */
module Store {
  import opened UserModel
  import Seqs

  type Url = string

  /**
   * A Note document. `user` is the id of the user who created it; `images`
   * is an ordered list of stored-image URLs; `createdAt` is a timestamp in
   * milliseconds.
   */
  datatype Note = Note(
    id: NoteId,
    user: UserId,
    title: string,
    audio: Url,
    transcribedText: string,
    content: string,
    images: seq<Url>,
    isFavourite: bool,
    createdAt: int)

  /** Every note is stored under its own id, and no id is empty. */
  predicate KeyedById(notes: map<NoteId, Note>)
  {
    forall id :: id in notes ==> id != "" && notes[id].id == id
  }

  /**
   * `populate("notes")` on a user: each id replaced by its document, in list
   * order; an id whose document no longer exists is dropped.
   */
  function Populate(ids: seq<NoteId>, notes: map<NoteId, Note>): (r: seq<Note>)
    ensures |r| <= |ids|
  {
    if ids == [] then []
    else (if ids[0] in notes then [notes[ids[0]]] else []) + Populate(ids[1..], notes)
  }

  /** A note appears in a populated list exactly when one of the ids names it. */
  lemma {:induction false} PopulateMembership(ids: seq<NoteId>, notes: map<NoteId, Note>, n: Note)
    ensures n in Populate(ids, notes) <==> exists i :: 0 <= i < |ids| && ids[i] in notes && notes[ids[i]] == n
  {
    if ids != [] {
      PopulateMembership(ids[1..], notes, n);
      assert forall i :: 0 < i < |ids| ==> ids[i] == ids[1..][i - 1];
      if exists i :: 0 < i < |ids| && ids[i] in notes && notes[ids[i]] == n {
        var i :| 0 < i < |ids| && ids[i] in notes && notes[ids[i]] == n;
        assert ids[1..][i - 1] in notes && notes[ids[1..][i - 1]] == n;
      }
    }
  }

  /** Appending an id whose document is new appends exactly that document. */
  lemma {:induction false} PopulateAppendNew(ids: seq<NoteId>, notes: map<NoteId, Note>, n: Note)
    requires n.id !in ids
    ensures Populate(ids + [n.id], notes[n.id := n]) == Populate(ids, notes) + [n]
  {
    if ids == [] {
      assert Populate([n.id], notes[n.id := n]) == [n] + Populate([], notes[n.id := n]);
    } else {
      assert (ids + [n.id])[1..] == ids[1..] + [n.id];
      PopulateAppendNew(ids[1..], notes, n);
      assert ids[0] != n.id;
    }
  }

  /** Storing a note whose id the list does not name leaves the populated list as it was. */
  lemma {:induction false} PopulateIgnoresUnlisted(ids: seq<NoteId>, notes: map<NoteId, Note>, n: Note)
    requires n.id !in ids
    ensures Populate(ids, notes[n.id := n]) == Populate(ids, notes)
  {
    if ids != [] {
      assert ids[0] != n.id;
      PopulateIgnoresUnlisted(ids[1..], notes, n);
    }
  }

  /** Once a note is removed from the collection, no populated list yields a note with its id. */
  lemma PopulateAfterRemove(ids: seq<NoteId>, notes: map<NoteId, Note>, id: NoteId)
    requires KeyedById(notes)
    ensures forall m :: m in Populate(ids, notes - {id}) ==> m.id != id
  {
    forall m | m in Populate(ids, notes - {id})
      ensures m.id != id
    {
      PopulateMembership(ids, notes - {id}, m);
      var i :| 0 <= i < |ids| && ids[i] in notes - {id} && (notes - {id})[ids[i]] == m;
    }
  }

  /** Both collections obey their schemas, and every Note id in use was once issued. */
  ghost predicate Consistent(users: map<UserId, User>, notes: map<NoteId, Note>, issued: set<NoteId>)
  {
    && Table(users)
    && KeyedById(notes)
    && notes.Keys <= issued
    && ListsIssued(users, issued)
  }

  /** Every id listed by a user was issued. */
  predicate ListsIssued(users: map<UserId, User>, issued: set<NoteId>)
  {
    forall u, i :: u in users && 0 <= i < |users[u].notes| ==> users[u].notes[i] in issued
  }

  /** Replacing one user's list by one whose ids were all issued keeps every list issued. */
  lemma SetListKeepsIssued(users: map<UserId, User>, issued: set<NoteId>, userId: UserId, ids: seq<NoteId>)
    requires ListsIssued(users, issued) && userId in users
    requires forall i :: 0 <= i < |ids| ==> ids[i] in issued
    ensures ListsIssued(users[userId := users[userId].(notes := ids)], issued)
  {
    var users' := users[userId := users[userId].(notes := ids)];
    forall u, i | u in users' && 0 <= i < |users'[u].notes|
      ensures users'[u].notes[i] in issued
    {
      if u != userId {
        assert users'[u] == users[u];
      }
    }
  }

  /** Storing a note under a fresh id and appending that id to an existing user's list keeps the database consistent. */
  lemma AddNoteKeepsConsistent(
    users: map<UserId, User>, notes: map<NoteId, Note>, issued: set<NoteId>, userId: UserId, n: Note)
    requires Consistent(users, notes, issued)
    requires userId in users && n.id != "" && n.id !in issued
    ensures n.id !in notes
    ensures forall u, i :: u in users && 0 <= i < |users[u].notes| ==> users[u].notes[i] != n.id
    ensures Consistent(users[userId := users[userId].(notes := users[userId].notes + [n.id])], notes[n.id := n], issued + {n.id})
  {
    var ids := users[userId].notes + [n.id];
    var users' := users[userId := users[userId].(notes := ids)];
    var notes' := notes[n.id := n];
    var issued' := issued + {n.id};
    SetNotesKeepsTable(users, userId, ids);
    assert Table(users');
    assert KeyedById(notes') && notes'.Keys <= issued';
    forall u, i | u in users && 0 <= i < |users[u].notes|
      ensures users[u].notes[i] in issued' && users[u].notes[i] != n.id
    {
      assert users[u].notes[i] in issued;
    }
    forall i | 0 <= i < |ids|
      ensures ids[i] in issued'
    {
      if i < |ids| - 1 {
        assert ids[i] == users[userId].notes[i];
      }
    }
    SetListKeepsIssued(users, issued', userId, ids);
    assert ListsIssued(users', issued');
  }

  /** The users collection after `$pull` of `id` from the list of the user `userId`, a no-op when no such user exists. */
  function Pulled(users: map<UserId, User>, userId: UserId, id: NoteId): (r: map<UserId, User>)
    ensures r.Keys == users.Keys
    ensures forall u :: u in users && u != userId ==> r[u] == users[u]
    ensures userId in users ==> r[userId] == users[userId].(notes := Seqs.RemoveAll(users[userId].notes, id))
  {
    if userId in users then users[userId := users[userId].(notes := Seqs.RemoveAll(users[userId].notes, id))] else users
  }

  /** Removing a note and pulling its id from one user's list keeps the database consistent. */
  lemma RemoveNoteKeepsConsistent(
    users: map<UserId, User>, notes: map<NoteId, Note>, issued: set<NoteId>, userId: UserId, id: NoteId)
    requires Consistent(users, notes, issued)
    ensures Consistent(Pulled(users, userId, id), notes - {id}, issued)
  {
    if userId in users {
      var user := users[userId];
      var kept := Seqs.RemoveAll(user.notes, id);
      SetNotesKeepsTable(users, userId, kept);
      forall i | 0 <= i < |kept|
        ensures kept[i] in issued
      {
        assert multiset(kept)[kept[i]] > 0;
        assert multiset(user.notes)[kept[i]] > 0;
        var j :| 0 <= j < |user.notes| && user.notes[j] == kept[i];
      }
      SetListKeepsIssued(users, issued, userId, kept);
    }
  }

  /** Inserting a well-formed user whose email is not taken, with no notes yet, keeps the database consistent. */
  lemma AddUserKeepsConsistent(
    users: map<UserId, User>, notes: map<NoteId, Note>, issued: set<NoteId>, u: User)
    requires Consistent(users, notes, issued)
    requires u.id != "" && u.id !in users && WellFormed(u) && u.notes == []
    requires forall id :: id in users ==> users[id].email != u.email
    ensures Consistent(users[u.id := u], notes, issued)
  {
    InsertKeepsTable(users, u);
    var users' := users[u.id := u];
    forall v, i | v in users' && 0 <= i < |users'[v].notes|
      ensures users'[v].notes[i] in issued
    {
      assert v != u.id && users'[v] == users[v];
    }
  }

  /** The whole database: both collections, and the set of Note ids ever handed out. */
  class Database {
    var users: map<UserId, User>
    var notes: map<NoteId, Note>
    ghost var issued: set<NoteId>

    ghost predicate Valid()
      reads this
    {
      Consistent(users, notes, issued)
    }

    constructor ()
      ensures Valid()
      ensures users == map[] && notes == map[] && issued == {}
    {
      users, notes, issued := map[], map[], {};
    }
  }
}
