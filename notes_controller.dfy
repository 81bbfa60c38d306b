/**
 * The note handlers: create, list (sorted by creation time), update with
 * image upload, delete, favourite toggle, favourite listing and title search.
 * Each handler is one sequential step over the database; the object-storage
 * upload is a function parameter that either yields a URL or rejects.
 */
module NotesController {
  import opened Wrappers
  import opened Http
  import opened UserModel
  import opened Store
  import Seqs
  import Text

  /** A file received in a multipart request. */
  datatype FileRef = FileRef(name: string)

  /** The outcome of uploading one value to object storage; its argument may be `undefined` (None). */
  datatype UploadResult = Uploaded(secureUrl: Url) | Rejected(reason: string)

  type Uploader = Option<FileRef> -> UploadResult

  // ---------------------------------------------------------------- createNote

  datatype CreateFiles = CreateFiles(audio: Option<FileRef>)

  /** `req.body.title`, `req.body.transcribedText` and `req.files`, the last absent when nothing was uploaded. */
  datatype CreateRequest = CreateRequest(title: Option<string>, transcribedText: Option<string>, files: Option<CreateFiles>)

  /** The fields checked with `!title || !audio || !transcribedText`. */
  predicate HasCreateFields(req: CreateRequest)
    requires req.files.Some?
  {
    Truthy(req.title) && req.files.value.audio.Some? && Truthy(req.transcribedText)
  }

  /**
   * The note `Note.create` stores: the given title and transcript, the audio's
   * URL, no content, no images, not a favourite.
   */
  function NewNote(id: NoteId, user: UserId, title: string, audio: Url, transcribedText: string, now: int): (n: Note)
    ensures n.id == id && n.user == user && n.title == title && n.audio == audio
    ensures n.transcribedText == transcribedText && n.createdAt == now
    ensures n.content == "" && n.images == [] && !n.isFavourite
  {
    Note(id, user, title, audio, transcribedText, "", [], false, now)
  }

  /**
   * The checks `createNote` makes before it stores anything, in order: reading
   * `req.files.audio` fails when no file came with the request, then a missing
   * user gives 404, a missing field 400, and a rejected upload 500. `None`
   * means every check passed.
   */
  function CreateRejection(users: map<UserId, User>, userId: UserId, req: CreateRequest, upload: Uploader): (r: Option<Reply<Note>>)
    ensures req.files.None? ==> r == Some(Reply(InternalError, Raised(FilesUndefined), None))
    ensures req.files.Some? && userId !in users ==> r == Some(Reply(NotFound, Said("User not found"), None))
    ensures req.files.Some? && userId in users && !HasCreateFields(req) ==>
      r == Some(Reply(BadRequest, Said("Please provide title, audio, and transcribedText"), None))
    ensures req.files.Some? && userId in users && HasCreateFields(req) && upload(req.files.value.audio).Rejected? ==>
      r == Some(Reply(InternalError, Raised(UploadFailed(upload(req.files.value.audio).reason)), None))
    ensures r.None? <==>
      req.files.Some? && userId in users && HasCreateFields(req) && upload(req.files.value.audio).Uploaded?
    ensures r.Some? ==> r.value.status != Created && r.value.body.None?
  {
    if req.files.None? then Some(Reply(InternalError, Raised(FilesUndefined), None))
    else if userId !in users then Some(Reply(NotFound, Said("User not found"), None))
    else if !Truthy(req.title) || req.files.value.audio.None? || !Truthy(req.transcribedText) then
      Some(Reply(BadRequest, Said("Please provide title, audio, and transcribedText"), None))
    else match upload(req.files.value.audio)
      case Rejected(reason) => Some(Reply(InternalError, Raised(UploadFailed(reason)), None))
      case Uploaded(_) => None
  }

  /**
   * `createNote`: a request the checks reject changes nothing; otherwise the
   * note is stored and its id appended to the user's list, 201.
   */
  method CreateNote(db: Database, userId: UserId, req: CreateRequest, newId: NoteId, now: int, upload: Uploader)
    returns (reply: Reply<Note>)
    requires db.Valid()
    requires newId != "" && newId !in db.issued
    modifies db
    ensures db.Valid()
    ensures CreateRejection(old(db.users), userId, req, upload).Some? ==>
      && reply == CreateRejection(old(db.users), userId, req, upload).value
      && db.users == old(db.users) && db.notes == old(db.notes) && db.issued == old(db.issued)
    ensures CreateRejection(old(db.users), userId, req, upload).None? ==>
      && var n := NewNote(newId, userId, req.title.value, upload(req.files.value.audio).secureUrl, req.transcribedText.value, now);
      && reply == Reply(Created, Said("Note created successfully"), Some(n))
      && db.notes == old(db.notes)[newId := n]
      && db.users == old(db.users)[userId := old(db.users)[userId].(notes := old(db.users)[userId].notes + [newId])]
      && db.issued == old(db.issued) + {newId}
  {
    var rejection := CreateRejection(db.users, userId, req, upload);
    if rejection.Some? {
      return rejection.value;
    }
    var audioFile := upload(req.files.value.audio);
    var note := NewNote(newId, userId, req.title.value, audioFile.secureUrl, req.transcribedText.value, now);
    StoreNote(db, userId, note);
    reply := Reply(Created, Said("Note created successfully"), Some(note));
  }

  /** `Note.create` followed by `user.notes.push(newNote._id)` and `user.save()`. */
  method StoreNote(db: Database, userId: UserId, note: Note)
    requires db.Valid()
    requires userId in db.users && note.id != "" && note.id !in db.issued
    modifies db
    ensures db.Valid()
    ensures db.notes == old(db.notes)[note.id := note]
    ensures db.users == old(db.users)[userId := old(db.users)[userId].(notes := old(db.users)[userId].notes + [note.id])]
    ensures db.issued == old(db.issued) + {note.id}
  {
    AddNoteKeepsConsistent(db.users, db.notes, db.issued, userId, note);
    var user := db.users[userId];
    db.notes := db.notes[note.id := note];
    db.issued := db.issued + {note.id};
    db.users := db.users[userId := user.(notes := user.notes + [note.id])];
  }

  /**
   * What a successful create means to the listing handlers: the creator's
   * populated list gains the new note at its end, and every other user's
   * populated list is unchanged.
   */
  lemma CreateThenFetch(users: map<UserId, User>, notes: map<NoteId, Note>, issued: set<NoteId>, userId: UserId, n: Note)
    requires Consistent(users, notes, issued)
    requires userId in users && n.id != "" && n.id !in issued
    ensures var users' := users[userId := users[userId].(notes := users[userId].notes + [n.id])];
      && Populate(users'[userId].notes, notes[n.id := n]) == Populate(users[userId].notes, notes) + [n]
      && forall u :: u in users && u != userId ==> Populate(users'[u].notes, notes[n.id := n]) == Populate(users[u].notes, notes)
  {
    AddNoteKeepsConsistent(users, notes, issued, userId, n);
    PopulateAppendNew(users[userId].notes, notes, n);
    forall u | u in users && u != userId
      ensures Populate(users[u].notes, notes[n.id := n]) == Populate(users[u].notes, notes)
    {
      PopulateIgnoresUnlisted(users[u].notes, notes, n);
    }
  }

  // ---------------------------------------------------------- getAllUsersNotes

  /** The order the comparator `a.createdAt - b.createdAt` sorts into: ascending creation time. */
  predicate SortedByCreatedAt(s: seq<Note>)
  {
    forall i, j :: 0 <= i < j < |s| ==> s[i].createdAt <= s[j].createdAt
  }

  /** Exchanges `a[j - 1]` and `a[j]`, leaving the rest of the array as it was. */
  method SwapWithPrevious(a: array<Note>, j: int)
    requires 0 < j < a.Length
    modifies a
    ensures a[j - 1] == old(a[j]) && a[j] == old(a[j - 1])
    ensures forall k :: 0 <= k < a.Length && k != j - 1 && k != j ==> a[k] == old(a[k])
    ensures multiset(a[..]) == old(multiset(a[..]))
  {
    a[j - 1], a[j] := a[j], a[j - 1];
  }

  /** `Array.prototype.sort` with the comparator `a.createdAt - b.createdAt`, in place (an insertion sort). */
  method SortByCreatedAt(a: array<Note>)
    modifies a
    ensures SortedByCreatedAt(a[..])
    ensures multiset(a[..]) == old(multiset(a[..]))
  {
    var i := 0;
    while i < a.Length
      invariant 0 <= i <= a.Length
      invariant SortedByCreatedAt(a[..i])
      invariant multiset(a[..]) == old(multiset(a[..]))
    {
      InsertNext(a, i);
      i := i + 1;
    }
    assert a[..a.Length] == a[..];
  }

  /** Moves `a[i]` left past every later-created note, so that `a[..i + 1]` is sorted when `a[..i]` was. */
  method InsertNext(a: array<Note>, i: int)
    requires 0 <= i < a.Length && SortedByCreatedAt(a[..i])
    modifies a
    ensures SortedByCreatedAt(a[..i + 1])
    ensures multiset(a[..]) == old(multiset(a[..]))
  {
    var j := i;
    while j > 0 && a[j - 1].createdAt > a[j].createdAt
      invariant 0 <= j <= i
      invariant forall p, q :: 0 <= p < q <= i && p != j && q != j ==> a[p].createdAt <= a[q].createdAt
      invariant forall q :: j < q <= i ==> a[j].createdAt < a[q].createdAt
      invariant multiset(a[..]) == old(multiset(a[..]))
    {
      SwapWithPrevious(a, j);
      j := j - 1;
    }
  }

  /**
   * `getAllUsersNotes`: the user's populated notes, sorted ascending by
   * `createdAt`. A user id that names no user fails on `user.notes` of null.
   */
  method GetAllUsersNotes(db: Database, userId: UserId) returns (reply: Reply<seq<Note>>)
    ensures userId == "" ==> reply == Reply(NotFound, Said("User not found"), None)
    ensures userId != "" && userId !in db.users ==> reply == Reply(InternalError, Raised(NullProperty("notes")), None)
    ensures userId != "" && userId in db.users ==>
      && reply.status == Ok && reply.message == Said("Notes fetched successfully") && reply.body.Some?
      && SortedByCreatedAt(reply.body.value)
      && multiset(reply.body.value) == multiset(Populate(db.users[userId].notes, db.notes))
  {
    if userId == "" {
      return Reply(NotFound, Said("User not found"), None);
    }
    if userId !in db.users {
      return Reply(InternalError, Raised(NullProperty("notes")), None);
    }
    var populated := Populate(db.users[userId].notes, db.notes);
    var a := new Note[|populated|](i requires 0 <= i < |populated| => populated[i]);
    assert a[..] == populated;
    SortByCreatedAt(a);
    reply := Reply(Ok, Said("Notes fetched successfully"), Some(a[..]));
  }

  // ---------------------------------------------------------------- updateNote

  /** `req.files.images`: absent, one file, or an array of files sent under the same field name. */
  datatype ImagesField = Absent | Single(file: FileRef) | Several(files: seq<FileRef>)

  datatype UpdateFiles = UpdateFiles(images: ImagesField)

  datatype UpdateRequest = UpdateRequest(
    title: Option<string>,
    content: Option<string>,
    transcribedText: Option<string>,
    files: Option<UpdateFiles>)

  /** What the handler uploads: a non-array value becomes a one-element list, so an absent field uploads `undefined`. */
  function ImageList(f: ImagesField): (r: seq<Option<FileRef>>)
    ensures f.Several? ==> |r| == |f.files| && forall i :: 0 <= i < |r| ==> r[i] == Some(f.files[i])
    ensures !f.Several? ==> |r| == 1
    ensures f.Single? ==> r[0] == Some(f.file)
    ensures f.Absent? ==> r[0] == None
  {
    match f
    case Absent => [None]
    case Single(file) => [Some(file)]
    case Several(files) => seq(|files|, i requires 0 <= i < |files| => Some(files[i]))
  }

  /** The outcome of uploading a list one element after another, stopping at the first rejection. */
  datatype Batch = Done(urls: seq<Url>) | Aborted(reason: string)

  function Uploads(files: seq<Option<FileRef>>, upload: Uploader): Batch
  {
    if files == [] then Done([])
    else match Uploads(files[..|files| - 1], upload)
      case Aborted(reason) => Aborted(reason)
      case Done(urls) =>
        match upload(files[|files| - 1])
        case Rejected(reason) => Aborted(reason)
        case Uploaded(url) => Done(urls + [url])
  }

  /**
   * A batch succeeds exactly when every upload does, and then yields each URL
   * in upload order; otherwise it reports the first rejection.
   */
  lemma {:induction false} UploadsSpec(files: seq<Option<FileRef>>, upload: Uploader)
    ensures Uploads(files, upload).Done? <==> forall i :: 0 <= i < |files| ==> upload(files[i]).Uploaded?
    ensures Uploads(files, upload).Done? ==>
      && |Uploads(files, upload).urls| == |files|
      && forall i :: 0 <= i < |files| ==> Uploads(files, upload).urls[i] == upload(files[i]).secureUrl
    ensures Uploads(files, upload).Aborted? ==>
      exists k :: 0 <= k < |files| && upload(files[k]).Rejected? && Uploads(files, upload).reason == upload(files[k]).reason
                  && forall i :: 0 <= i < k ==> upload(files[i]).Uploaded?
  {
    if files != [] {
      var init := files[..|files| - 1];
      UploadsSpec(init, upload);
      assert forall i :: 0 <= i < |init| ==> init[i] == files[i];
    }
  }

  /** Once a prefix of the batch aborts, the whole batch aborts with the same reason: later files are never uploaded. */
  lemma {:induction false} AbortedPrefixAborts(files: seq<Option<FileRef>>, upload: Uploader, k: nat)
    requires k <= |files| && Uploads(files[..k], upload).Aborted?
    ensures Uploads(files, upload) == Uploads(files[..k], upload)
  {
    if k < |files| {
      var init := files[..|files| - 1];
      assert init[..k] == files[..k];
      AbortedPrefixAborts(init, upload, k);
    } else {
      assert files[..k] == files;
    }
  }

  /** The upload loop of `updateNote`, pushing each URL as it arrives. */
  method UploadAll(files: seq<Option<FileRef>>, upload: Uploader) returns (r: Batch)
    ensures r == Uploads(files, upload)
  {
    var urls := [];
    var i := 0;
    while i < |files|
      invariant 0 <= i <= |files|
      invariant Uploads(files[..i], upload) == Done(urls)
    {
      assert files[..i + 1][..i] == files[..i];
      var result := upload(files[i]);
      if result.Rejected? {
        assert files[..i + 1][i] == files[i];
        assert Uploads(files[..i + 1], upload) == Aborted(result.reason);
        AbortedPrefixAborts(files, upload, i + 1);
        return Aborted(result.reason);
      }
      urls := urls + [result.secureUrl];
      i := i + 1;
    }
    assert files[..i] == files;
    r := Done(urls);
  }

  /**
   * The note after `updateNote` assigns its fields: each text field replaced
   * only by a truthy request value, `newImages` appended after the existing ones.
   */
  function Edited(n: Note, req: UpdateRequest, newImages: seq<Url>): (m: Note)
    ensures m.id == n.id && m.user == n.user && m.audio == n.audio
    ensures m.isFavourite == n.isFavourite && m.createdAt == n.createdAt
    ensures Truthy(req.title) ==> m.title == req.title.value
    ensures !Truthy(req.title) ==> m.title == n.title
    ensures Truthy(req.content) ==> m.content == req.content.value
    ensures !Truthy(req.content) ==> m.content == n.content
    ensures Truthy(req.transcribedText) ==> m.transcribedText == req.transcribedText.value
    ensures !Truthy(req.transcribedText) ==> m.transcribedText == n.transcribedText
    ensures |m.images| == |n.images| + |newImages|
    ensures m.images[..|n.images|] == n.images && m.images[|n.images|..] == newImages
  {
    n.(title := if Truthy(req.title) then req.title.value else n.title,
       content := if Truthy(req.content) then req.content.value else n.content,
       transcribedText := if Truthy(req.transcribedText) then req.transcribedText.value else n.transcribedText,
       images := n.images + newImages)
  }

  /** The URLs an update appends, or the rejection that aborts it. */
  function UpdateUploads(req: UpdateRequest, upload: Uploader): Batch
  {
    if req.files.None? then Done([]) else Uploads(ImageList(req.files.value.images), upload)
  }

  /**
   * `updateNote`: 404 for a missing note; 500 if any image upload rejects, with
   * nothing saved; otherwise the edited note is saved and returned.
   */
  method UpdateNote(db: Database, noteId: NoteId, req: UpdateRequest, upload: Uploader) returns (reply: Reply<Note>)
    requires db.Valid()
    modifies db
    ensures db.Valid()
    ensures db.users == old(db.users) && db.issued == old(db.issued)
    ensures noteId !in old(db.notes) ==>
      reply == Reply(NotFound, Said("Note not found"), None) && db.notes == old(db.notes)
    ensures noteId in old(db.notes) && UpdateUploads(req, upload).Aborted? ==>
      reply == Reply(InternalError, Raised(UploadFailed(UpdateUploads(req, upload).reason)), None)
      && db.notes == old(db.notes)
    ensures noteId in old(db.notes) && UpdateUploads(req, upload).Done? ==>
      var n := Edited(old(db.notes)[noteId], req, UpdateUploads(req, upload).urls);
      reply == Reply(Ok, Said("Note updated successfully"), Some(n)) && db.notes == old(db.notes)[noteId := n]
  {
    if noteId !in db.notes {
      return Reply(NotFound, Said("Note not found"), None);
    }
    var note := db.notes[noteId];
    var newImages := [];
    if req.files.Some? {
      var batch := UploadAll(ImageList(req.files.value.images), upload);
      if batch.Aborted? {
        return Reply(InternalError, Raised(UploadFailed(batch.reason)), None);
      }
      newImages := batch.urls;
    }
    note := Edited(note, req, newImages);
    db.notes := db.notes[noteId := note];
    reply := Reply(Ok, Said("Note updated successfully"), Some(note));
  }

  // ---------------------------------------------------------------- deleteNote

  /**
   * `deleteNote`: removes the note (if any) and every occurrence of its id from
   * the requesting user's list (if that user exists), and answers 200 either way.
   */
  method DeleteNote(db: Database, userId: UserId, noteId: NoteId) returns (reply: Reply<()>)
    requires db.Valid()
    modifies db
    ensures db.Valid()
    ensures db.issued == old(db.issued)
    ensures noteId == "" ==>
      reply == Reply(NotFound, Said("Note not found"), None)
      && db.notes == old(db.notes) && db.users == old(db.users)
    ensures noteId != "" ==>
      && reply == Reply(Ok, Said("Note deleted successfully"), None)
      && db.notes == old(db.notes) - {noteId}
      && db.users == Pulled(old(db.users), userId, noteId)
  {
    if noteId == "" {
      return Reply(NotFound, Said("Note not found"), None);
    }
    PullNote(db, userId, noteId);
    reply := Reply(Ok, Said("Note deleted successfully"), None);
  }

  /** `Note.findByIdAndDelete(noteId)` followed by `$pull` of the id from the requesting user's list. */
  method PullNote(db: Database, userId: UserId, noteId: NoteId)
    requires db.Valid()
    modifies db
    ensures db.Valid()
    ensures db.issued == old(db.issued)
    ensures db.notes == old(db.notes) - {noteId}
    ensures db.users == Pulled(old(db.users), userId, noteId)
  {
    RemoveNoteKeepsConsistent(db.users, db.notes, db.issued, userId, noteId);
    db.users, db.notes := Pulled(db.users, userId, noteId), db.notes - {noteId};
  }

  /** After a delete, the listing handlers yield no note with the deleted id, for any user. */
  lemma DeletedNoteNotListed(users: map<UserId, User>, notes: map<NoteId, Note>, issued: set<NoteId>, userId: UserId, noteId: NoteId)
    requires Consistent(users, notes, issued)
    ensures var users' := Pulled(users, userId, noteId);
      forall u, m :: u in users' && m in Populate(users'[u].notes, notes - {noteId}) ==> m.id != noteId
  {
    var users' := Pulled(users, userId, noteId);
    forall u | u in users'
      ensures forall m :: m in Populate(users'[u].notes, notes - {noteId}) ==> m.id != noteId
    {
      PopulateAfterRemove(users'[u].notes, notes, noteId);
    }
  }

  // ------------------------------------------------- toggleNoteFavouriteStatus

  /** `toggleNoteFavouriteStatus`: flips `isFavourite`; a missing note fails on reading a property of null. */
  method ToggleNoteFavouriteStatus(db: Database, noteId: NoteId) returns (reply: Reply<Note>)
    requires db.Valid()
    modifies db
    ensures db.Valid()
    ensures db.users == old(db.users) && db.issued == old(db.issued)
    ensures noteId == "" ==> reply == Reply(NotFound, Said("Note not found"), None) && db.notes == old(db.notes)
    ensures noteId != "" && noteId !in old(db.notes) ==>
      reply == Reply(InternalError, Raised(NullProperty("isFavourite")), None) && db.notes == old(db.notes)
    ensures noteId != "" && noteId in old(db.notes) ==>
      var n := old(db.notes)[noteId].(isFavourite := !old(db.notes)[noteId].isFavourite);
      reply == Reply(Ok, Said("Note favorite status updated successfully"), Some(n))
      && db.notes == old(db.notes)[noteId := n]
  {
    if noteId == "" {
      return Reply(NotFound, Said("Note not found"), None);
    }
    if noteId !in db.notes {
      return Reply(InternalError, Raised(NullProperty("isFavourite")), None);
    }
    var note := db.notes[noteId];
    note := note.(isFavourite := !note.isFavourite);
    db.notes := db.notes[noteId := note];
    reply := Reply(Ok, Said("Note favorite status updated successfully"), Some(note));
  }

  /**
   * Toggling twice restores both collections, for every id: a present note's
   * flag flips back, and an empty or unknown id changes nothing either time.
   */
  method ToggleTwice(db: Database, noteId: NoteId)
    requires db.Valid()
    modifies db
    ensures db.notes == old(db.notes) && db.users == old(db.users)
  {
    var first := ToggleNoteFavouriteStatus(db, noteId);
    var second := ToggleNoteFavouriteStatus(db, noteId);
  }

  // ------------------------------------------------------ getAllFavouriteNotes

  predicate IsFavourite(n: Note)
  {
    n.isFavourite == true
  }

  /**
   * `getAllFavouriteNotes`: the user's populated notes whose flag is true, in
   * list order, each as often as in the list.
   */
  function GetAllFavouriteNotes(users: map<UserId, User>, notes: map<NoteId, Note>, userId: UserId): (r: Reply<seq<Note>>)
    ensures userId == "" ==> r == Reply(NotFound, Said("User not found"), None)
    ensures userId != "" && userId !in users ==> r == Reply(InternalError, Raised(NullProperty("notes")), None)
    ensures userId != "" && userId in users ==>
      var all := Populate(users[userId].notes, notes);
      && r.status == Ok && r.message == Said("Favorite notes fetched successfully") && r.body.Some?
      && Seqs.IsSubsequence(r.body.value, all)
      && (forall k :: 0 <= k < |r.body.value| ==> r.body.value[k].isFavourite)
      && (forall n :: multiset(r.body.value)[n] == if n.isFavourite then multiset(all)[n] else 0)
  {
    if userId == "" then Reply(NotFound, Said("User not found"), None)
    else if userId !in users then Reply(InternalError, Raised(NullProperty("notes")), None)
    else
      var all := Populate(users[userId].notes, notes);
      Seqs.FilterSpec(IsFavourite, all);
      Reply(Ok, Said("Favorite notes fetched successfully"), Some(Seqs.Filter(IsFavourite, all)))
  }

  // -------------------------------------------------------- searchNotesByTitle

  /** The search predicate: the lower-cased title includes the lower-cased query. */
  predicate TitleMatches(query: string, n: Note)
  {
    Text.Includes(Text.ToLower(n.title), Text.ToLower(query))
  }

  /**
   * `searchNotesByTitle`: 404 without a user id, 400 without a query, then the
   * user's populated notes whose title matches, in list order.
   */
  function SearchNotesByTitle(users: map<UserId, User>, notes: map<NoteId, Note>, userId: UserId, search: Option<string>)
    : (r: Reply<seq<Note>>)
    ensures userId == "" ==> r == Reply(NotFound, Said("User not found"), None)
    ensures userId != "" && !Truthy(search) ==> r == Reply(BadRequest, Said("Search query is required"), None)
    ensures userId != "" && Truthy(search) && userId !in users ==> r == Reply(InternalError, Raised(NullProperty("notes")), None)
    ensures userId != "" && Truthy(search) && userId in users ==>
      var all := Populate(users[userId].notes, notes);
      && r.status == Ok && r.message == Said("Search results fetched successfully") && r.body.Some?
      && Seqs.IsSubsequence(r.body.value, all)
      && (forall k :: 0 <= k < |r.body.value| ==> TitleMatches(search.value, r.body.value[k]))
      && (forall n :: multiset(r.body.value)[n] == if TitleMatches(search.value, n) then multiset(all)[n] else 0)
  {
    if userId == "" then Reply(NotFound, Said("User not found"), None)
    else if !Truthy(search) then Reply(BadRequest, Said("Search query is required"), None)
    else if userId !in users then Reply(InternalError, Raised(NullProperty("notes")), None)
    else
      var all := Populate(users[userId].notes, notes);
      var matches := (n: Note) => TitleMatches(search.value, n);
      Seqs.FilterSpec(matches, all);
      Reply(Ok, Said("Search results fetched successfully"), Some(Seqs.Filter(matches, all)))
  }
}
