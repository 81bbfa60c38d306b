/**
 * The browser recording session of the `useVoiceRecorder` hook. The media
 * device, the MediaRecorder and the speech-recognition engine are abstract:
 * the session reacts to events (device granted or refused, a chunk of audio
 * arrived, the recorder stopped, a batch of recognition results arrived, the
 * timeout fired) and keeps the hook's refs and state as fields.
 */
module VoiceRecorder {
  import opened Wrappers
  import Seqs

  // ------------------------------------------------------------------ audio

  /** The payload of one `dataavailable` event; its `size` is the number of bytes. */
  datatype Chunk = Chunk(data: seq<bv8>)

  /** The `e.data.size > 0` test of `ondataavailable`. */
  predicate NonEmpty(c: Chunk)
  {
    |c.data| > 0
  }

  /** A Blob: the parts it was built from, in order, and its MIME type. */
  datatype Blob = Blob(parts: seq<Chunk>, mimeType: string)

  const AudioType := "audio/webm"

  /** The bytes of a Blob built from `parts`: their payloads concatenated in order. */
  function Bytes(parts: seq<Chunk>): seq<bv8>
  {
    if parts == [] then [] else parts[0].data + Bytes(parts[1..])
  }

  /** The `ondataavailable` rule: a chunk is appended to the buffer only when its size is positive. */
  function Arrive(buffer: seq<Chunk>, c: Chunk): (r: seq<Chunk>)
    ensures NonEmpty(c) ==> r == buffer + [c]
    ensures !NonEmpty(c) ==> r == buffer
  {
    if |c.data| > 0 then buffer + [c] else buffer
  }

  /** The buffer after the chunks `arrivals` reach `ondataavailable` one after another. */
  function AfterArrivals(buffer: seq<Chunk>, arrivals: seq<Chunk>): seq<Chunk>
    decreases arrivals
  {
    if arrivals == [] then buffer else AfterArrivals(Arrive(buffer, arrivals[0]), arrivals[1..])
  }

  /** The buffer holds exactly the non-empty arrivals, in arrival order. */
  lemma {:induction false} AfterArrivalsKeepsNonEmpty(buffer: seq<Chunk>, arrivals: seq<Chunk>)
    ensures AfterArrivals(buffer, arrivals) == buffer + Seqs.Filter(NonEmpty, arrivals)
    decreases arrivals
  {
    if arrivals != [] {
      AfterArrivalsKeepsNonEmpty(Arrive(buffer, arrivals[0]), arrivals[1..]);
      if NonEmpty(arrivals[0]) {
        assert buffer + [arrivals[0]] + Seqs.Filter(NonEmpty, arrivals[1..])
            == buffer + ([arrivals[0]] + Seqs.Filter(NonEmpty, arrivals[1..]));
      } else {
        assert Seqs.Filter(NonEmpty, arrivals) == Seqs.Filter(NonEmpty, arrivals[1..]);
      }
    }
  }

  /** Dropping empty chunks loses no bytes: the recording is every payload, in arrival order. */
  lemma {:induction false} NonEmptyChunksKeepBytes(arrivals: seq<Chunk>)
    ensures Bytes(Seqs.Filter(NonEmpty, arrivals)) == Bytes(arrivals)
  {
    if arrivals != [] {
      NonEmptyChunksKeepBytes(arrivals[1..]);
      if NonEmpty(arrivals[0]) {
        var rest := Seqs.Filter(NonEmpty, arrivals[1..]);
        assert Seqs.Filter(NonEmpty, arrivals) == [arrivals[0]] + rest;
        assert ([arrivals[0]] + rest)[1..] == rest;
      } else {
        assert arrivals[0].data == [];
        assert Seqs.Filter(NonEmpty, arrivals) == Seqs.Filter(NonEmpty, arrivals[1..]);
      }
    }
  }

  // ------------------------------------------------------------- transcript

  /** One entry of `event.results`: the transcript of its first alternative and whether it is final. */
  datatype Segment = Segment(transcript: string, isFinal: bool)

  /** The final segments' transcripts, each followed by one space, in order. */
  function FinalText(segments: seq<Segment>): string
  {
    if segments == [] then ""
    else
      var last := segments[|segments| - 1];
      FinalText(segments[..|segments| - 1]) + (if last.isFinal then last.transcript + " " else "")
  }

  /** The interim segments' transcripts, concatenated in order. */
  function InterimText(segments: seq<Segment>): string
  {
    if segments == [] then ""
    else
      var last := segments[|segments| - 1];
      InterimText(segments[..|segments| - 1]) + (if last.isFinal then "" else last.transcript)
  }

  /** `results[from..to]`, or nothing when that range is not within the list. */
  function Span(results: seq<Segment>, from: nat, to: nat): seq<Segment>
  {
    if from <= to <= |results| then results[from..to] else []
  }

  /**
   * The transcript an `onresult` event leaves behind: the final text of the
   * results from `resultIndex` on if it is not empty, else their interim text.
   */
  function Transcript(results: seq<Segment>, resultIndex: nat): string
  {
    var pending := Span(results, resultIndex, |results|);
    var finalText := FinalText(pending);
    if finalText != "" then finalText else InterimText(pending)
  }

  /** Final text is empty exactly when no segment is final: each final segment contributes at least its space. */
  lemma {:induction false} FinalTextEmptyIff(segments: seq<Segment>)
    ensures FinalText(segments) == "" <==> forall i :: 0 <= i < |segments| ==> !segments[i].isFinal
  {
    if segments != [] {
      var init := segments[..|segments| - 1];
      var last := segments[|segments| - 1];
      FinalTextEmptyIff(init);
      assert forall i :: 0 <= i < |init| ==> init[i] == segments[i];
      var extra := if last.isFinal then last.transcript + " " else "";
      assert FinalText(segments) == FinalText(init) + extra;
      assert extra == "" <==> !last.isFinal;
      assert |FinalText(segments)| == |FinalText(init)| + |extra|;
    }
  }

  /**
   * Final text wins: when a final segment lies at or after `resultIndex` the
   * transcript is the final text of that range, otherwise its interim text.
   * Segments before `resultIndex` play no part.
   */
  lemma TranscriptPrecedence(results: seq<Segment>, resultIndex: nat)
    ensures (exists i :: resultIndex <= i < |results| && results[i].isFinal) ==>
      Transcript(results, resultIndex) == FinalText(results[resultIndex..])
    ensures (forall i :: resultIndex <= i < |results| ==> !results[i].isFinal) ==>
      Transcript(results, resultIndex) == InterimText(Span(results, resultIndex, |results|))
  {
    var pending := Span(results, resultIndex, |results|);
    FinalTextEmptyIff(pending);
    if exists i :: resultIndex <= i < |results| && results[i].isFinal {
      var i :| resultIndex <= i < |results| && results[i].isFinal;
      assert pending == results[resultIndex..];
      assert pending[i - resultIndex] == results[i];
      assert FinalText(pending) != "";
    }
    if resultIndex <= |results| {
      assert forall j :: 0 <= j < |pending| ==> pending[j] == results[resultIndex + j];
    }
  }

  lemma {:induction false} FinalTextAppend(a: seq<Segment>, b: seq<Segment>)
    ensures FinalText(a + b) == FinalText(a) + FinalText(b)
  {
    if b != [] {
      var b' := b[..|b| - 1];
      var x := b[|b| - 1];
      assert (a + b)[..|a + b| - 1] == a + b';
      assert (a + b)[|a + b| - 1] == x;
      FinalTextAppend(a, b');
      var extra := if x.isFinal then x.transcript + " " else "";
      assert FinalText(a + b) == FinalText(a + b') + extra;
      assert FinalText(b) == FinalText(b') + extra;
      assert FinalText(a) + (FinalText(b') + extra) == (FinalText(a) + FinalText(b')) + extra;
    } else {
      assert a + b == a;
      assert FinalText(a) + FinalText(b) == FinalText(a);
    }
  }

  lemma {:induction false} InterimTextAppend(a: seq<Segment>, b: seq<Segment>)
    ensures InterimText(a + b) == InterimText(a) + InterimText(b)
  {
    if b != [] {
      var b' := b[..|b| - 1];
      var x := b[|b| - 1];
      assert (a + b)[..|a + b| - 1] == a + b';
      assert (a + b)[|a + b| - 1] == x;
      InterimTextAppend(a, b');
      var extra := if x.isFinal then "" else x.transcript;
      assert InterimText(a + b) == InterimText(a + b') + extra;
      assert InterimText(b) == InterimText(b') + extra;
      assert InterimText(a) + (InterimText(b') + extra) == (InterimText(a) + InterimText(b')) + extra;
    } else {
      assert a + b == a;
      assert InterimText(a) + InterimText(b) == InterimText(a);
    }
  }

  /**
   * The transcript is recomputed from the results at and after `resultIndex`
   * alone: earlier results, final or not, are not carried over.
   */
  lemma TranscriptIgnoresEarlierResults(earlier: seq<Segment>, batch: seq<Segment>)
    ensures Transcript(earlier + batch, |earlier|) == Transcript(batch, 0)
  {
    assert (earlier + batch)[|earlier|..] == batch;
    assert Span(earlier + batch, |earlier|, |earlier + batch|) == batch;
    assert batch[0..] == batch;
    assert Span(batch, 0, |batch|) == batch;
  }

  /** A final segment followed by an interim one in the same batch: the final text, with its space, wins. */
  lemma FinalSegmentWins()
    ensures Transcript([Segment("hello world", true), Segment("hello wor", false)], 0) == "hello world "
  {
    var first := [Segment("hello world", true)];
    var batch := first + [Segment("hello wor", false)];
    assert batch == [Segment("hello world", true), Segment("hello wor", false)];
    assert batch[0..] == batch;
    assert Span(batch, 0, |batch|) == batch;
    assert batch[..1] == first && first[..0] == [];
    assert FinalText(first) == "hello world ";
    assert FinalText(batch) == "hello world ";
  }

  /**
   * An event whose `resultIndex` points past an earlier final segment at an
   * interim one replaces the earlier final text with the interim text.
   */
  lemma InterimBatchReplacesEarlierFinal()
    ensures Transcript([Segment("hello world", true), Segment("hello wor", false)], 1) == "hello wor"
  {
    var pending := [Segment("hello wor", false)];
    var results := [Segment("hello world", true)] + pending;
    assert results == [Segment("hello world", true), Segment("hello wor", false)];
    assert results[1..] == pending;
    assert Span(results, 1, |results|) == pending;
    assert pending[..0] == [];
    assert FinalText(pending) == "";
    assert InterimText(pending) == "hello wor";
  }

  /** The `onresult` loop from `resultIndex` to the end of `results`, accumulating both texts. */
  method ComputeTranscript(results: seq<Segment>, resultIndex: nat) returns (t: string)
    ensures t == Transcript(results, resultIndex)
  {
    if resultIndex > |results| {
      return "";
    }
    var interimTranscript := "";
    var finalTranscript := "";
    var i := resultIndex;
    while i < |results|
      invariant resultIndex <= i <= |results|
      invariant finalTranscript == FinalText(Span(results, resultIndex, i))
      invariant interimTranscript == InterimText(Span(results, resultIndex, i))
    {
      SpanStep(results, resultIndex, i);
      var transcript := results[i].transcript;
      if results[i].isFinal {
        finalTranscript := finalTranscript + (transcript + " ");
      } else {
        interimTranscript := interimTranscript + transcript;
      }
      i := i + 1;
    }
    t := if finalTranscript != "" then finalTranscript else interimTranscript;
  }

  /** Extending the range by one result adds that result's contribution to each text. */
  lemma SpanStep(results: seq<Segment>, from: nat, i: nat)
    requires from <= i < |results|
    ensures FinalText(Span(results, from, i + 1)) ==
      FinalText(Span(results, from, i)) + (if results[i].isFinal then results[i].transcript + " " else "")
    ensures InterimText(Span(results, from, i + 1)) ==
      InterimText(Span(results, from, i)) + (if results[i].isFinal then "" else results[i].transcript)
  {
    var next := Span(results, from, i + 1);
    assert next[..|next| - 1] == Span(results, from, i);
    assert next[|next| - 1] == results[i];
  }

  // ---------------------------------------------------------------- session

  datatype RecorderState = Recording | Stopping | Inactive

  /** The MediaRecorder held in `mediaRecorderRef`, and whether its stream's tracks are still live. */
  datatype MediaRecorder = MediaRecorder(state: RecorderState, tracksLive: bool)

  /** `Failed`: the error was logged and "Failed to start recording" shown. */
  datatype StartOutcome = Started | Failed

  /** Everything a session holds that its methods change. */
  datatype SessionState = SessionState(
    isRecording: bool,
    audioBlob: Option<Blob>,
    recorder: Option<MediaRecorder>,
    chunks: seq<Chunk>,
    transcript: string,
    recognitionStarted: bool,
    timer: Option<bool>)

  /**
   * The state after `stopRecording` of the current render: while recording,
   * the recorder is stopping with its tracks stopped, the engine is stopped
   * and the timer cleared; otherwise the state is as it was.
   */
  function Stopped(st: SessionState): (r: SessionState)
    ensures !(st.isRecording && st.recorder.Some?) ==> r == st
    ensures st.isRecording && st.recorder.Some? ==>
      && !r.isRecording && r.recorder == Some(MediaRecorder(Stopping, false))
      && !r.recognitionStarted && r.timer == None
      && r.chunks == st.chunks && r.transcript == st.transcript && r.audioBlob == st.audioBlob
  {
    if st.isRecording && st.recorder.Some? then
      st.(isRecording := false, recorder := Some(MediaRecorder(Stopping, false)), recognitionStarted := false, timer := None)
    else st
  }

  /** Stopping a second time changes nothing: `Stopped` is idempotent. */
  lemma StoppedIdempotent(st: SessionState)
    ensures Stopped(Stopped(st)) == Stopped(st)
  {
  }

  class Session {
    /** Whether a SpeechRecognition engine was found when the hook mounted. */
    const speechAvailable: bool
    var isRecording: bool
    var audioBlob: Option<Blob>
    var recorder: Option<MediaRecorder>
    var chunks: seq<Chunk>
    var transcript: string
    /** Whether the recognition engine has been started and has not stopped or ended since. */
    var recognitionStarted: bool
    /** The pending 60-second timeout, holding the `isRecording` value its `stopRecording` closure saw. */
    var timer: Option<bool>

    ghost predicate Valid()
      reads this
    {
      && (isRecording ==> recorder == Some(MediaRecorder(Recording, true)))
      && (!speechAvailable ==> transcript == "" && !recognitionStarted)
      && (timer == Some(true) ==> isRecording)
      && (forall k :: 0 <= k < |chunks| ==> NonEmpty(chunks[k]))
    }

    function State(): SessionState
      reads this
    {
      SessionState(isRecording, audioBlob, recorder, chunks, transcript, recognitionStarted, timer)
    }

    constructor (speechAvailable: bool)
      ensures Valid()
      ensures this.speechAvailable == speechAvailable
      ensures !isRecording && audioBlob == None && recorder == None && chunks == [] && transcript == ""
      ensures !recognitionStarted && timer == None
    {
      this.speechAvailable := speechAvailable;
      isRecording, audioBlob, recorder, chunks, transcript := false, None, None, [], "";
      recognitionStarted, timer := false, None;
    }

    /**
     * `startRecording`. A refused device changes nothing. Otherwise a new
     * recorder is started on an empty buffer; starting a recognition engine
     * that is already running throws, which leaves `isRecording`, the
     * transcript and the timer as they were. Only a start that gets through
     * sets `isRecording`, clears the transcript and arms the timeout.
     */
    method Start(deviceGranted: bool) returns (outcome: StartOutcome)
      requires Valid()
      modifies this
      ensures Valid()
      ensures !deviceGranted ==> outcome == Failed && unchanged(this)
      ensures deviceGranted ==>
        && recorder == Some(MediaRecorder(Recording, true)) && chunks == []
        && audioBlob == old(audioBlob) && recognitionStarted == (speechAvailable || old(recognitionStarted))
      ensures deviceGranted && speechAvailable && old(recognitionStarted) ==>
        && outcome == Failed
        && isRecording == old(isRecording) && transcript == old(transcript) && timer == old(timer)
      ensures deviceGranted && !(speechAvailable && old(recognitionStarted)) ==>
        && outcome == Started
        && isRecording && transcript == "" && timer == Some(old(isRecording))
    {
      var closureSawRecording := isRecording;
      if !deviceGranted {
        return Failed;
      }
      recorder := Some(MediaRecorder(Inactive, true));
      chunks := [];
      recorder := Some(MediaRecorder(Recording, true));
      if speechAvailable {
        if recognitionStarted {
          return Failed;
        }
        recognitionStarted := true;
      }
      isRecording := true;
      transcript := "";
      timer := Some(closureSawRecording);
      outcome := Started;
    }

    /** `ondataavailable`, from a recorder this session started. */
    method OnDataAvailable(c: Chunk)
      requires Valid() && recorder.Some?
      modifies this`chunks
      ensures Valid()
      ensures chunks == Arrive(old(chunks), c)
    {
      if |c.data| > 0 {
        chunks := chunks + [c];
      }
    }

    /** `onstop` of the current recorder, after `stop()` was called on it: the buffered chunks become the audio. */
    method OnRecorderStop()
      requires Valid() && recorder.Some? && recorder.value.state == Stopping
      modifies this`audioBlob, this`recorder
      ensures Valid()
      ensures audioBlob == Some(Blob(chunks, AudioType))
      ensures recorder == Some(old(recorder.value).(state := Inactive))
    {
      audioBlob := Some(Blob(chunks, AudioType));
      recorder := Some(recorder.value.(state := Inactive));
    }

    /** The body of `stopRecording` once its guard has passed. */
    method StopSession()
      requires Valid() && isRecording
      modifies this
      ensures Valid()
      ensures !isRecording && recorder == Some(MediaRecorder(Stopping, false))
      ensures !recognitionStarted && timer == None
      ensures chunks == old(chunks) && transcript == old(transcript) && audioBlob == old(audioBlob)
    {
      recorder := Some(MediaRecorder(Stopping, true));
      recognitionStarted := false;
      isRecording := false;
      timer := None;
      recorder := Some(recorder.value.(tracksLive := false));
    }

    /**
     * `stopRecording` from the current render: effective only while
     * recording, when it stops the recorder and the engine, clears the
     * timeout and stops every track. Otherwise nothing changes.
     */
    method Stop()
      requires Valid()
      modifies this
      ensures Valid()
      ensures !isRecording
      ensures old(isRecording) ==>
        && recorder == Some(MediaRecorder(Stopping, false)) && !recognitionStarted && timer == None
        && chunks == old(chunks) && transcript == old(transcript) && audioBlob == old(audioBlob)
      ensures !old(isRecording) ==> unchanged(this)
      ensures State() == Stopped(old(State()))
    {
      if recorder.Some? && isRecording {
        StopSession();
      }
    }

    /**
     * The 60-second timeout fires and runs the `stopRecording` closure of the
     * render that armed it, which sees that render's `isRecording`.
     */
    method OnTimeout()
      requires Valid() && timer.Some?
      modifies this
      ensures Valid()
      ensures timer == None
      ensures old(timer) == Some(false) ==>
        && isRecording == old(isRecording) && recorder == old(recorder) && recognitionStarted == old(recognitionStarted)
        && chunks == old(chunks) && transcript == old(transcript) && audioBlob == old(audioBlob)
      ensures old(timer) == Some(true) ==>
        && !isRecording && recorder == Some(MediaRecorder(Stopping, false)) && !recognitionStarted
        && chunks == old(chunks) && transcript == old(transcript) && audioBlob == old(audioBlob)
    {
      var closureSawRecording := timer.value;
      timer := None;
      if recorder.Some? && closureSawRecording {
        StopSession();
      }
    }

    /** `recognition.onresult`: the transcript is overwritten by the one this batch yields. */
    method OnSpeechResult(results: seq<Segment>, resultIndex: nat)
      requires Valid() && speechAvailable
      modifies this`transcript
      ensures Valid()
      ensures transcript == Transcript(results, resultIndex)
    {
      var t := ComputeTranscript(results, resultIndex);
      transcript := t;
    }

    /** The recognition engine ended on its own. */
    method OnRecognitionEnd()
      requires Valid() && speechAvailable
      modifies this`recognitionStarted
      ensures Valid()
      ensures !recognitionStarted
    {
      recognitionStarted := false;
    }

    /** `setAudioBlob`, exposed to the component (which clears it after a note is sent). */
    method SetAudioBlob(blob: Option<Blob>)
      requires Valid()
      modifies this`audioBlob
      ensures Valid()
      ensures audioBlob == blob
    {
      audioBlob := blob;
    }

    /** `getTranscribedText`: without a recognition engine it is always empty. */
    function GetTranscribedText(): (t: string)
      reads this
      requires Valid()
      ensures !speechAvailable ==> t == ""
    {
      transcript
    }
  }

  /**
   * A session without a recognition engine: two non-empty chunks and an empty
   * one arrive, the user stops, the recorder reports it stopped. The audio is
   * the two chunks in order and the transcript is empty.
   */
  method RecordWithoutSpeech(first: Chunk, second: Chunk) returns (audio: Option<Blob>, text: string)
    requires NonEmpty(first) && NonEmpty(second)
    ensures audio == Some(Blob([first, second], AudioType))
    ensures audio.value.mimeType == "audio/webm" && Bytes(audio.value.parts) == first.data + second.data
    ensures text == ""
  {
    var session := new Session(false);
    var outcome := session.Start(true);
    assert session.isRecording && session.chunks == [];
    session.OnDataAvailable(first);
    session.OnDataAvailable(Chunk([]));
    session.OnDataAvailable(second);
    assert session.chunks == [first, second];
    session.Stop();
    assert session.recorder == Some(MediaRecorder(Stopping, false));
    session.OnRecorderStop();
    audio := session.audioBlob;
    text := session.GetTranscribedText();
    assert [first, second][1..] == [second] && [second][1..] == [];
    assert Bytes([second]) == second.data;
  }

  /**
   * The timeout armed by a start from an idle session runs a `stopRecording`
   * that saw `isRecording` false, so it leaves the session recording.
   */
  method TimeoutAfterStart(speechAvailable: bool) returns (stillRecording: bool, recorder: Option<MediaRecorder>)
    ensures stillRecording && recorder == Some(MediaRecorder(Recording, true))
  {
    var session := new Session(speechAvailable);
    var outcome := session.Start(true);
    session.OnTimeout();
    stillRecording, recorder := session.isRecording, session.recorder;
  }

  /**
   * A second start while recording arms a closure that saw `isRecording` true,
   * so its timeout does stop the session.
   */
  method TimeoutAfterRestart() returns (stillRecording: bool, recorder: Option<MediaRecorder>)
    ensures !stillRecording && recorder == Some(MediaRecorder(Stopping, false))
  {
    var session := new Session(false);
    var first := session.Start(true);
    var second := session.Start(true);
    session.OnTimeout();
    stillRecording, recorder := session.isRecording, session.recorder;
  }

  /**
   * Once the engine has ended on its own, a second start starts it again and
   * gets through; while it runs, the second start fails.
   */
  method RestartAfterEngineEnd() returns (whileRunning: StartOutcome, afterEnd: StartOutcome)
    ensures whileRunning == Failed && afterEnd == Started
  {
    var session := new Session(true);
    var first := session.Start(true);
    whileRunning := session.Start(true);
    session.OnRecognitionEnd();
    afterEnd := session.Start(true);
  }

  /** Stopping any session twice has the effect of stopping it once. */
  method StopTwice(s: Session)
    requires s.Valid()
    modifies s
    ensures s.Valid()
    ensures s.State() == Stopped(old(s.State()))
  {
    s.Stop();
    s.Stop();
    StoppedIdempotent(old(s.State()));
  }
}
