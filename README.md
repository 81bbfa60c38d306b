# Voice notes: a verified model of the recorder, the note handlers and the user registry

This project models the application logic of a voice-notes web application.
Users record a note in the browser, which keeps the audio and a live speech
transcript. They sign up and log in, and store, edit, favourite, search and
delete notes on a server backed by a document database. Three pieces are
modelled:

- **The recording session** (`useVoiceRecorder`), as the class
  `VoiceRecorder.Session`. Its fields are the hook's state and refs: the
  `isRecording` flag, the chunk buffer, the finished audio blob, the
  transcript, the current MediaRecorder, whether the recognition engine is
  running, and the pending 60-second timeout. Its methods fire on abstract
  events:
  - the device is granted or refused;
  - a chunk arrives;
  - the recorder stops;
  - a batch of recognition results arrives;
  - the timeout fires.

  The transcript rule of `onresult` is the function
  `VoiceRecorder.Transcript`, and its loop is the method
  `VoiceRecorder.ComputeTranscript`, proved to compute it.
- **The note handlers** (`createNote`, `getAllUsersNotes`, `updateNote`,
  `deleteNote`, `toggleNoteFavouriteStatus`, `getAllFavouriteNotes`,
  `searchNotesByTitle`). The handlers that change data are methods that take
  a `Store.Database`, which holds the users collection and the notes
  collection as maps. The two filtering handlers are functions over those
  maps. Every handler returns a `Http.Reply`: the status code, the message or
  the raised exception, and the body. The order of the checks is kept. The
  in-place sort of `getAllUsersNotes` is an insertion sort on an array.
- **The user registry** (`signup`, `login` and the `User` schema).
  - `UserModel` states the schema:
    - the email is required, unique, trimmed and lower-cased;
    - the password is required;
    - `notes` is an ordered list of Note ids.
  - `UserController.Signup` inserts into the database.
  - `UserController.Login` is a pure decision over a lookup and a password
    comparison.
  - `bcrypt.hash`, `bcrypt.compare` and `jwt.sign` are function parameters.

A database invariant, `Store.Consistent`, is kept by every handler:
- the users collection obeys the schema;
- every note is stored under its own id;
- every note id in use was issued once.

Module layout:

| module | file |
|---|---|
| `Wrappers` | `wrappers.dfy` |
| `Http` | `http.dfy` |
| `Seqs` (order-preserving filter, `$pull`) | `seqs.dfy` |
| `Text` (JavaScript `trim`, `toLowerCase` and `includes`) | `text.dfy` |
| `UserModel` | `user_model.dfy` |
| `Store` | `store.dfy` |
| `NotesController` | `notes_controller.dfy` |
| `UserController` | `user_controller.dfy` |
| `VoiceRecorder` | `voice_recorder.dfy` |

Four behaviours are modelled as the code has them, though they may surprise a
reader of the user interface:
- **The transcript is not cumulative.** Each `onresult` event overwrites the
  transcript with the text of the results from `resultIndex` on, so final
  text from an earlier event is dropped (`VoiceRecorder.InterimBatchReplacesEarlierFinal`).
- **Starting while recording is not a no-op.** `startRecording` has no guard.
  - A second start makes a new recorder and empties the buffer.
  - With a recognition engine that is still running, it then fails when the
    engine is started again. That failure leaves `isRecording`, the
    transcript and the timer as they were. Once the engine has ended on its
    own, the second start gets through (`VoiceRecorder.RestartAfterEngineEnd`).
- **The one-minute limit usually does not stop anything.** The timeout calls
  the `stopRecording` of the render that armed it, whose guard reads that
  render's `isRecording`.
  - A timeout armed by a start from an idle session does nothing
    (`VoiceRecorder.TimeoutAfterStart`).
  - A timeout armed by a start while recording, which the page's button never
    issues, stops the session (`VoiceRecorder.TimeoutAfterRestart`).
- **Three server inputs fail with 500 rather than a clean error.**
  - A create request with no files fails with 500 before the user is looked
    up.
  - A list request for a user id that names no user fails with 500.
  - An email of only white space passes the `!email` check and then fails
    validation.

## Model

| member | source | states |
|---|---|---|
| Http.Truthy | server/controllers/notesController.js:18 | A request field passes a `!field` test exactly when it is present and not the empty string. |
| Seqs.Filter | server/controllers/notesController.js:193-195 | `Array.prototype.filter`: the elements satisfying the predicate, in order. Its meaning is stated by `Seqs.FilterSpec`. |
| Text.IsTrimmable | server/models/User.js:8 | The characters `trim` strips: the ECMAScript WhiteSpace code points (tab, vertical tab, form feed, space, no-break space, the byte order mark and the Unicode space separators) and the LineTerminators (line feed, carriage return, U+2028, U+2029). |
| Text.TrimmedRun | server/models/User.js:8 | `s[a..b]` is a run of the input with only trimmable characters before `a` and from `b` on. |
| Text.TrimStart | server/models/User.js:8 | The result is a suffix of the input, every dropped character is JavaScript white space or a line terminator, and the result does not start with one. |
| Text.TrimEnd | server/models/User.js:8 | The result is a prefix of the input, every dropped character is white space or a line terminator, and the result does not end with one. |
| Text.Trim | server/models/User.js:8 | The result is the run `s[a..b]` of the input such that everything before `a` and from `b` on is white space or a line terminator, and the run itself neither starts nor ends with one. |
| Text.TrimIdempotent | server/models/User.js:8 | Trimming twice is trimming once. |
| Text.IsUpper | server/models/User.js:9 | The ASCII upper-case letters A to Z, the characters the model's `toLowerCase` changes. |
| Text.LowerChar | server/models/User.js:9 | An upper-case letter maps to its lower-case letter (code point + 32); every other character is unchanged; the result is never upper-case. |
| Text.ToLower | server/controllers/notesController.js:230-233 | Lower-casing keeps the length and maps every character by `LowerChar`. |
| Text.LowerIdempotent | server/models/User.js:9 | Lower-casing twice is lower-casing once. |
| Text.TrimStartLower | server/models/User.js:8-9 | Trimming the start commutes with lower-casing. |
| Text.TrimEndLower | server/models/User.js:8-9 | Trimming the end commutes with lower-casing. |
| Text.TrimLowerCommute | server/models/User.js:8-9 | `trim` and `toLowerCase` commute. |
| Text.Includes | server/controllers/notesController.js:236 | `String.prototype.includes`: the query occurs as a contiguous run of the title, the empty query everywhere. Its meaning is stated by `Text.IncludesAt`. |
| Text.IncludesAt | server/controllers/notesController.js:236 | `includes` holds exactly when the query occurs at some position of the title (the empty query occurs everywhere). |
| UserModel.CastEmail | server/models/User.js:4-10 | The stored email is the lower-cased run `raw[a..b]` left after dropping the surrounding white space, so it has no white space at either end and no upper-case letter. |
| UserModel.HasRequiredFields | server/models/User.js:7-13 | The `required` validators of `email` (line 7) and `password` (line 13): neither is the empty string. |
| UserModel.Normalised | server/models/User.js:8-9 | The form the `trim` and `lowercase` setters leave an email in: no trimmable character at either end and no upper-case letter. `UserModel.NormalisedIffFixed` proves it is exactly the setters' fixed points. |
| UserModel.NormalisedIffFixed | server/models/User.js:8-9 | An email has no surrounding white space and no upper-case letter exactly when the setters leave it unchanged. |
| UserModel.CastEmailIdempotent | server/models/User.js:8-9 | A stored email is already normalised: casting it again changes nothing. |
| UserModel.SetterOrderIrrelevant | server/models/User.js:8-9 | Trimming then lower-casing equals lower-casing then trimming. |
| UserModel.WellFormed | server/models/User.js:4-14 | A document the schema accepts: both required fields non-empty and the email in the setters' normal form. |
| UserModel.EmailsUnique | server/models/User.js:6 | The `unique: true` index on `email`: no two users hold the same email. |
| UserModel.Stored | server/models/User.js:3-22 | A user document stored under its own non-empty `_id` and accepted by the schema. |
| UserModel.Table | server/models/User.js:3-24 | The users collection: unique emails, and every document stored under its own id and accepted by the schema. |
| UserModel.FindByEmail | server/controllers/userController.js:17 | `findOne({ email })` finds the user whose stored email equals the normalised query, and reports none exactly when no stored email equals it. |
| UserModel.FindByEmailFinds | server/controllers/userController.js:51 | With unique emails, looking up any query that casts to a stored email finds exactly that user. |
| UserModel.InsertKeepsUnique | server/models/User.js:6 | Adding a user whose email is not taken keeps the unique index. |
| UserModel.InsertKeepsTable | server/models/User.js:4-14 | Inserting a schema-valid user with a fresh id and an untaken email keeps the emails unique and every document valid. |
| UserModel.SetNotesKeepsTable | server/models/User.js:16-21 | Replacing a user's `notes` list keeps the collection valid: the schema puts no constraint on the list. |
| Seqs.FilterSpec | server/controllers/notesController.js:193-195 | `filter` keeps exactly the elements that satisfy the predicate, in order (a subsequence), each as often as in the input. |
| Seqs.RemoveAll | server/controllers/notesController.js:147 | `$pull` removes every occurrence of the id, keeps the rest in order, and keeps every other id's count. |
| Store.KeyedById | server/controllers/notesController.js:27-32 | The notes collection: every note created by `Note.create` is stored under its own non-empty `_id`. |
| Store.ListsIssued | server/models/User.js:16-21 | Every Note id in a user's `notes` list is one that was issued to a created note; it may since have been deleted. |
| Store.Consistent | server/models/User.js:3-24 | The database invariant: the users collection obeys the user schema, every note is stored under its own id, and every id that is stored or listed was issued. |
| Store.Populate | server/controllers/notesController.js:58 | `populate("notes")`: each listed id replaced by its note, in list order, with ids of missing notes dropped; never longer than the list. Its meaning is stated by `Store.PopulateMembership`. |
| Store.PopulateMembership | server/controllers/notesController.js:58 | A note is in the populated list exactly when one of the listed ids names it in the collection. |
| Store.PopulateAppendNew | server/controllers/notesController.js:35 | Appending the id of a newly stored note appends exactly that note to the populated list. |
| Store.PopulateIgnoresUnlisted | server/controllers/notesController.js:27-32 | Storing a note leaves the populated list of every list that does not name it unchanged. |
| Store.PopulateAfterRemove | server/controllers/notesController.js:144 | After a note is deleted from the collection, no populated list yields a note with its id. |
| Store.Pulled | server/controllers/notesController.js:147 | `$pull` on the requesting user changes that user's list only, and nothing when no such user exists. |
| Store.AddNoteKeepsConsistent | server/controllers/notesController.js:27-37 | Storing a note under a fresh id and appending the id to an existing user's list keeps the database consistent; the fresh id was in no list before. |
| Store.RemoveNoteKeepsConsistent | server/controllers/notesController.js:144-147 | Deleting a note and pulling its id from one user's list keeps the database consistent. |
| Store.AddUserKeepsConsistent | server/controllers/userController.js:25-28 | Inserting a valid user with a fresh id, an untaken email and no notes keeps the database consistent. |
| NotesController.NewNote | server/controllers/notesController.js:27-32 | The created note has the given title, transcript and audio URL, its creator and creation time, no content, no images, and is not a favourite. |
| NotesController.HasCreateFields | server/controllers/notesController.js:18 | The create request passes the `!title`, `!audio` and `!transcribedText` tests: title and transcript truthy and an audio file present. |
| NotesController.CreateRejection | server/controllers/notesController.js:10-25 | The ladder in order: no files gives 500, an unknown user 404, a falsy title, audio or transcript 400, a rejected upload 500; it rejects nothing exactly when all checks pass and the upload succeeds. |
| NotesController.CreateNote | server/controllers/notesController.js:6-46 | A rejected request changes nothing. Otherwise the new note is stored, its id is appended at the end of the user's list with earlier entries untouched, and the reply is 201 with the note. The database stays consistent. |
| NotesController.StoreNote | server/controllers/notesController.js:27-37 | The note is stored, its id is appended to the user's list, and nothing else changes. |
| NotesController.CreateThenFetch | server/controllers/notesController.js:35-37 | After a create, the creator's populated list is the old one plus the new note at its end, and every other user's populated list is unchanged. |
| NotesController.SortedByCreatedAt | server/controllers/notesController.js:61 | The order the comparator `a.createdAt - b.createdAt` sorts into: `createdAt` never decreases along the list. |
| NotesController.SwapWithPrevious | server/controllers/notesController.js:61 | Exchanges two neighbouring notes and keeps the array a permutation. |
| NotesController.InsertNext | server/controllers/notesController.js:61 | Extends the sorted prefix by one note and keeps the array a permutation. |
| NotesController.SortByCreatedAt | server/controllers/notesController.js:61 | The array ends sorted ascending by `createdAt` and is a permutation of the input. |
| NotesController.GetAllUsersNotes | server/controllers/notesController.js:49-70 | An empty user id gives 404 and an unknown user 500. Otherwise the reply is 200 with the user's populated notes, sorted by `createdAt` and a permutation of them. |
| NotesController.ImageList | server/controllers/notesController.js:98-104 | An array of files is uploaded as is; a single file, or an absent field, becomes a one-element list. |
| NotesController.Uploads | server/controllers/notesController.js:106-116 | Uploads the files one after another and stops at the first rejection. Its meaning is stated by `NotesController.UploadsSpec`. |
| NotesController.UploadsSpec | server/controllers/notesController.js:106-116 | A batch of uploads succeeds exactly when every upload does, and yields their URLs in upload order. Otherwise it reports the first rejection. |
| NotesController.AbortedPrefixAborts | server/controllers/notesController.js:109-116 | Once a prefix of the uploads is rejected, the whole batch fails with the same reason; no later upload affects the outcome. |
| NotesController.UploadAll | server/controllers/notesController.js:106-116 | The upload loop computes the batch outcome. |
| NotesController.UpdateUploads | server/controllers/notesController.js:98-120 | Without files nothing is uploaded; otherwise the image list of `ImageList` is uploaded by `Uploads`. |
| NotesController.Edited | server/controllers/notesController.js:83-119 | Each of title, content and transcript is replaced exactly when the request value is truthy, and kept otherwise. The new images follow the existing ones, which are kept. All other fields are unchanged. |
| NotesController.UpdateNote | server/controllers/notesController.js:73-132 | A missing note gives 404; a rejected upload gives 500 with nothing saved. Otherwise the edited note is saved and returned with 200. Users are never touched. |
| NotesController.DeleteNote | server/controllers/notesController.js:135-155 | An empty id gives 404 and changes nothing. Otherwise the note is removed and the id pulled from the requester's list, and the reply is 200 whether or not the note existed. |
| NotesController.PullNote | server/controllers/notesController.js:143-147 | Deletes the note and pulls the id from the requester's list, keeping the database consistent. |
| NotesController.DeletedNoteNotListed | server/controllers/notesController.js:143-147 | After a delete, no user's populated list holds a note with the deleted id. |
| NotesController.ToggleNoteFavouriteStatus | server/controllers/notesController.js:158-178 | An empty id gives 404 and a missing note 500, changing nothing. Otherwise only that note's `isFavourite` flips, and the reply is 200 with it. |
| NotesController.ToggleTwice | server/controllers/notesController.js:158-178 | For every note id, toggling twice restores the notes and users collections: a present note's flag flips back, and an empty or unknown id changes nothing. |
| NotesController.IsFavourite | server/controllers/notesController.js:194 | The callback `note.isFavourite === true`. |
| NotesController.GetAllFavouriteNotes | server/controllers/notesController.js:181-204 | An empty id gives 404 and an unknown user 500. Otherwise the reply is 200 with an order-preserving subsequence of the user's notes: exactly the favourites, each as often as listed. |
| NotesController.TitleMatches | server/controllers/notesController.js:228-237 | The search callback: the lower-cased title includes the lower-cased query. Its meaning is stated by `Text.IncludesAt`. |
| NotesController.SearchNotesByTitle | server/controllers/notesController.js:207-247 | An empty id gives 404, a missing or empty query 400, an unknown user 500. Otherwise the reply is 200 with an order-preserving subsequence: exactly the notes whose lower-cased title includes the lower-cased query. |
| UserController.HasCredentials | server/controllers/userController.js:10 | Email and password both pass the `!email` and `!password` tests of signup and login (also line 44). |
| UserController.FailedPaths | server/models/User.js:4-14 | Validation fails exactly on the empty required fields, naming each. |
| UserController.SignupRejection | server/controllers/userController.js:10-28 | The ladder in order: missing fields give 400, a taken (normalised) email 400, a document failing validation 500; it rejects nothing exactly when both fields are present, the email is free and validation passes. |
| UserController.Signup | server/controllers/userController.js:6-37 | A rejected request changes nothing and gets the ladder's reply. Every other request adds exactly one user, holding the normalised email and `hash(password)`, with no notes, and gets 201. The database stays consistent. |
| UserController.InsertUser | server/controllers/userController.js:25-28 | Stores the new user and nothing else, keeping the database consistent. |
| UserController.Login | server/controllers/userController.js:40-74 | Only 200 or 400 is returned, and a token exactly with 200. Missing fields or an unknown email give 400. For the matching user, 200 with `sign(id, 1 hour)` when `compare(password, hash)` holds, else 400 "Invalid credentials". |
| UserController.SignupThenLogin | server/controllers/userController.js:6-74 | After a signup, logging in with the same password and any email that normalises to the same address yields the new user's token. |
| VoiceRecorder.NonEmpty | src/hooks/voiceRecorder.js:45 | The `e.data.size > 0` test: a chunk with at least one byte. |
| VoiceRecorder.Bytes | src/hooks/voiceRecorder.js:51 | The bytes of a Blob built from a list of chunks: their payloads concatenated in order. |
| VoiceRecorder.Arrive | src/hooks/voiceRecorder.js:44-48 | A chunk is appended at the end of the buffer when its size is positive; an empty one leaves the buffer unchanged. |
| VoiceRecorder.AfterArrivals | src/hooks/voiceRecorder.js:44-48 | The buffer after a sequence of `dataavailable` events, each handled by `Arrive`. Its meaning is stated by `VoiceRecorder.AfterArrivalsKeepsNonEmpty`. |
| VoiceRecorder.AfterArrivalsKeepsNonEmpty | src/hooks/voiceRecorder.js:44-48 | After any sequence of arrivals, the buffer is the old buffer followed by the non-empty arrivals in order. |
| VoiceRecorder.NonEmptyChunksKeepBytes | src/hooks/voiceRecorder.js:44-53 | Dropping empty chunks loses no audio bytes. |
| VoiceRecorder.FinalText | src/hooks/voiceRecorder.js:24-28 | The final segments' transcripts, each followed by one space, in order. Its meaning is stated by `VoiceRecorder.FinalTextAppend` and `VoiceRecorder.FinalTextEmptyIff`. |
| VoiceRecorder.InterimText | src/hooks/voiceRecorder.js:24-30 | The interim segments' transcripts, concatenated in order. Its meaning is stated by `VoiceRecorder.InterimTextAppend`. |
| VoiceRecorder.Transcript | src/hooks/voiceRecorder.js:20-34 | The `onresult` rule: the final text of the results from `resultIndex` on when it is not empty, else their interim text. Its meaning is stated by `VoiceRecorder.TranscriptPrecedence`. |
| VoiceRecorder.FinalTextEmptyIff | src/hooks/voiceRecorder.js:24-33 | The final text is empty exactly when no segment is final. |
| VoiceRecorder.TranscriptPrecedence | src/hooks/voiceRecorder.js:20-34 | With a final segment at or after `resultIndex`, the transcript is the final text of that range; otherwise it is the interim text. |
| VoiceRecorder.FinalTextAppend | src/hooks/voiceRecorder.js:24-31 | The final text of two ranges together is the concatenation of their final texts. |
| VoiceRecorder.InterimTextAppend | src/hooks/voiceRecorder.js:24-31 | The interim text of two ranges together is the concatenation of their interim texts. |
| VoiceRecorder.SpanStep | src/hooks/voiceRecorder.js:24-31 | One more result adds its transcript and a space to the final text if it is final, or its transcript to the interim text if it is not. |
| VoiceRecorder.TranscriptIgnoresEarlierResults | src/hooks/voiceRecorder.js:24-33 | Results before `resultIndex` play no part in the transcript. |
| VoiceRecorder.FinalSegmentWins | src/hooks/voiceRecorder.js:24-33 | A final "hello world" followed by an interim "hello wor" gives "hello world ". |
| VoiceRecorder.InterimBatchReplacesEarlierFinal | src/hooks/voiceRecorder.js:33 | An event whose `resultIndex` skips an earlier final segment leaves only the interim text: the transcript is not cumulative. |
| VoiceRecorder.ComputeTranscript | src/hooks/voiceRecorder.js:20-34 | The `onresult` loop computes `Transcript(results, resultIndex)`. |
| VoiceRecorder.Session.constructor | src/hooks/voiceRecorder.js:5-11 | A new session is idle: not recording, no blob, no recorder, no chunks, empty transcript, no timer. |
| VoiceRecorder.Session.Start | src/hooks/voiceRecorder.js:38-67 | A refused device changes nothing. Otherwise a recording recorder runs on an empty buffer. If the engine was already running, the start fails and `isRecording`, the transcript and the timer keep their values; else `isRecording` is set, the transcript cleared and the timeout armed. |
| VoiceRecorder.Session.OnDataAvailable | src/hooks/voiceRecorder.js:44-48 | The buffer becomes `Arrive(old buffer, chunk)`. |
| VoiceRecorder.Session.OnRecorderStop | src/hooks/voiceRecorder.js:50-53 | The audio blob is the buffered chunks in order, typed "audio/webm". |
| VoiceRecorder.Session.StopSession | src/hooks/voiceRecorder.js:70-79 | Stops the recorder and its tracks, stops the engine, clears the timer and `isRecording`; the buffer, transcript and blob are unchanged. |
| VoiceRecorder.Stopped | src/hooks/voiceRecorder.js:69-80 | While recording, stopping leaves the recorder stopping with its tracks stopped, the engine stopped and the timer cleared, and keeps the buffer, transcript and blob; otherwise the state is unchanged. |
| VoiceRecorder.StoppedIdempotent | src/hooks/voiceRecorder.js:69-80 | Stopping a stopped state changes nothing. |
| VoiceRecorder.Session.Stop | src/hooks/voiceRecorder.js:69-80 | Effective only while recording, with the effects of `StopSession`; otherwise the session is unchanged. The whole new state is `Stopped` of the old one. |
| VoiceRecorder.Session.OnTimeout | src/hooks/voiceRecorder.js:60-62 | A timeout whose closure saw `isRecording` false changes nothing but the timer; one that saw true stops the session. |
| VoiceRecorder.Session.OnSpeechResult | src/hooks/voiceRecorder.js:20-34 | The transcript is overwritten with `Transcript(results, resultIndex)`. |
| VoiceRecorder.Session.OnRecognitionEnd | src/hooks/voiceRecorder.js:56 | After the engine ends on its own it is no longer running, so a later start can start it again. |
| VoiceRecorder.Session.SetAudioBlob | src/hooks/voiceRecorder.js:87 | The blob is the given value. |
| VoiceRecorder.Session.GetTranscribedText | src/hooks/voiceRecorder.js:82 | Without a recognition engine the transcript is always empty. |
| VoiceRecorder.RecordWithoutSpeech | src/hooks/voiceRecorder.js:38-80 | Without an engine: start, two non-empty chunks and an empty one, stop. The audio is exactly the two chunks in order, typed "audio/webm", with their bytes concatenated; the transcript is empty. |
| VoiceRecorder.TimeoutAfterStart | src/hooks/voiceRecorder.js:60-62 | The timeout armed by a start from an idle session leaves it recording. |
| VoiceRecorder.TimeoutAfterRestart | src/hooks/voiceRecorder.js:60-62 | The timeout armed by a second start while recording stops the session: the recorder is stopping with its tracks stopped and `isRecording` is false. |
| VoiceRecorder.RestartAfterEngineEnd | src/hooks/voiceRecorder.js:56 | A second start fails while the recognition engine is running, and gets through once the engine has ended on its own. |
| VoiceRecorder.StopTwice | src/hooks/voiceRecorder.js:69-80 | For any session, two calls of `stopRecording` leave every field as one call does. |

## Left out

- Browser media and speech APIs are not modelled. This covers `getUserMedia`, MediaRecorder, SpeechRecognition, timers, track stopping and React re-rendering. They are events the session reacts to, and flags it keeps.
- The recognition engine's asynchronous end after `stop()` is taken to happen at once. `VoiceRecorder.Session.OnRecognitionEnd` models an end the engine reports on its own.
- Error reporting in the recorder is not modelled. `console.error` and the "Failed to start recording" toast become the `Failed` outcome of `Start`.
- A recorder replaced by a second start is not modelled further. Its tracks are not stopped, and its late `onstop`, which in the source would build a blob from the new recorder's emptied buffer, is not modelled: `VoiceRecorder.Session.OnRecorderStop` handles only the current recorder's stop.
- Cloudinary, bcrypt and jsonwebtoken are function parameters. Upload either yields a URL or rejects; `uploadToCloudinary` itself is not part of this model. The upload of an absent image field (`undefined`) is left to the upload parameter, which may reject it.
- The secret passed to `jwt.sign` and the token's encoding are not modelled; the token is `sign(Claims(id, 3600))`.
- Mongoose internals are not modelled. This covers ObjectId casting (a malformed id fails with a CastError, 500), `populate`, `save` and the unique index's race window. Ids are strings; the empty string stands for a falsy id.
- The Note schema is not part of this model. A new note is taken to have empty content, no images, `isFavourite` false and `createdAt` equal to the given time.
- Atomicity and concurrency are not modelled: each handler is one sequential step. The note document and the user's list are written separately in the source, and a failure between the two writes is not modelled.
- Authentication middleware, routes and server wiring are not modelled. The requesting user's id is a parameter.
- NotesController.SortByCreatedAt: states sortedness and permutation but not the stability of `Array.prototype.sort`. Equal `createdAt` values may end in another order.
- Text.LowerChar: lower-cases only ASCII letters, whereas `toLowerCase` maps all of Unicode. The search and email normalisation are exact for ASCII text.
- Text.ToLower: inherits the ASCII-only mapping of `Text.LowerChar`.
- NotesController.TitleMatches: compares titles and queries lower-cased by `Text.ToLower`, so it is exact only for ASCII letters.
- UserModel.CastEmail: lower-cases through `Text.ToLower`, so it is exact only for ASCII letters.
- Request fields are strings. A JSON body whose email or password is not a string is not modelled: a number, which makes bcrypt throw (500), or an object carrying query operators that `findOne` would apply. A repeated `search` parameter, which Express parses into an array whose missing `toLowerCase` throws (500), is not modelled either.
- A timeout replaced by a later start is not modelled. In the source it stays armed, because `stopRecording` clears only the latest one; the model keeps only the last timeout.
- Client-side views, the search debounce and date formatting are not modelled.
