/**
 * The request workflow of download_audio (lines 17-92) as a specification:
 * the outcome of each external call is given by an `Oracle`, and `Run`
 * says what one run does with the chat and the temporary file. The
 * properties the workflow promises are lemmas about `Run`; the imperative
 * version of the workflow (module Workflow) is proved equal to it.
 */
module Request {
  import opened Admission
  import opened Format

  /** The exceptions the workflow distinguishes: yt_dlp.DownloadError, httpx.ConnectError, any other. */
  datatype Fault = DownloadError | ConnectError | OtherFault

  /** What one external call does: returns a value or raises a fault. */
  datatype Outcome<T> = Done(value: T) | Raise(fault: Fault)

  /** The outcome of a call whose return value the workflow does not use. */
  type Status = Outcome<()>

  /** The metadata yt_dlp returns; `None` marks a key missing from the info dictionary. */
  datatype Info = Info(title: Option<string>, uploader: Option<string>, duration: Option<nat>)

  /** The fields of the audio reply. */
  datatype Audio = Audio(title: string, performer: string, duration: nat, caption: string)

  /**
   * The outcome of every external call download_audio can make, one per call
   * site. A call that is not reached on a run has no effect on it.
   */
  datatype Oracle = Oracle(
    reject: Status,          // reply_text of the domain-rejection text (line 23)
    wait: Status,            // reply_text of the wait message (line 28)
    extract: Outcome<Info>,  // extract_info with download=True, then prepare_filename (lines 40-41)
    size: Outcome<nat>,      // os.path.getsize (line 43)
    sizeReply: Status,       // reply_text of the size-rejection text (line 45)
    removeInline: Status,    // os.remove inside the try block (line 47 or line 72)
    deleteWait: Status,      // wait_msg.delete() before sending the audio (line 51)
    audio: Status,           // open and reply_audio (lines 54-69)
    deleteInHandler: Status, // wait_msg.delete() in the except handler that runs (line 77, 81 or 86)
    netReply: Status,        // reply_text of the network-failure text (line 82)
    removeFinally: Status    // os.remove in the finally block (line 90)
  )

  /** How a run of download_audio ends. */
  datatype Exit =
    | Rejected           // the message was refused as not a video link (line 24, or line 160 in handle_message)
    | SizeGated          // the file was too large (return at line 48)
    | Completed          // the try block ran to its end: the audio was sent
    | Handled(fault: Fault)  // an except handler caught `fault` and finished
    | Escaped(fault: Fault)  // `fault` left download_audio (to the framework's error handler)

  /** One effect on the chat or the file system, in the order it happened. */
  datatype Effect =
    | Posted(text: string)
    | WaitDeleted
    | AudioSent(audio: Audio)
    | FileWritten
    | FileRemoved

  const DomainRejectText: string := "សូមបញ្ចូល YouTube URL ត្រឹមត្រូវ!"
  const NudgeText: string := "🤔 សូមផ្ញើ YouTube URL មកខ្ញុំ!"
  const WaitText: string := "⏳ Dowloading Mp3..."
  const SizeText: string := "ឯកសារធំពេក! សូមជ្រើសរើសវីដេអូខ្លីជាងនេះ។"
  const NetworkText: string := "🔌 បញ្ហាការតភ្ជាប់អ៊ីនធឺណិត! សូមព្យាយាមម្តងទៀត។"

  /** 45 MiB, the largest file that is sent. */
  const MaxAudioBytes: nat := 45 * 1024 * 1024

  /** The size gate of line 44. */
  predicate TooLarge(size: nat) {
    size > MaxAudioBytes
  }

  /** The gate lets a file of exactly 45 MiB through and stops one byte more. */
  lemma SizeGateBoundary()
    ensures MaxAudioBytes == 47185920
    ensures !TooLarge(47185920) && TooLarge(47185921)
  {
  }

  /** The audio reply built from the extracted metadata (lines 55-68). */
  function AudioFor(info: Info): Audio {
    var title := SentTitle(info.title);
    var performer := SentPerformer(info.uploader);
    var duration := info.duration.GetOr(0);
    Audio(title, performer, duration, Caption(title, performer, DurationStr(duration)))
  }

  /**
   * The fields of the audio reply: the title and performer are the metadata
   * (or the defaults) cut to 64 and 32 characters, the duration is
   * the metadata's (0 when missing) and its `minutes:ss` rendering reads
   * back as that duration.
   */
  lemma ReplyFields(info: Info)
    ensures var a := AudioFor(info);
      var t, u := info.title.GetOr(DefaultTitle), info.uploader.GetOr(DefaultUploader);
      a.title <= t && |a.title| == (if |t| <= MaxTitle then |t| else MaxTitle) &&
      a.performer <= u && |a.performer| == (if |u| <= MaxPerformer then |u| else MaxPerformer) &&
      (info.title.None? ==> a.title == DefaultTitle) &&
      (info.uploader.None? ==> a.performer == DefaultUploader) &&
      a.duration == info.duration.GetOr(0) &&
      ParseDuration(DurationStr(a.duration)) == Some(a.duration)
  {
    DurationRoundTrip(info.duration.GetOr(0));
  }

  /**
   * When the title and uploader carry no newline, the caption is exactly
   * four lines: title, performer, duration and attribution.
   */
  lemma ReplyCaptionLines(info: Info)
    requires '\n' !in AudioFor(info).title && '\n' !in AudioFor(info).performer
    ensures var a := AudioFor(info);
      Lines(a.caption) == ["🎵 " + a.title, "👤 " + a.performer, "⏱️ " + DurationStr(a.duration), Attribution]
  {
    var a := AudioFor(info);
    CaptionLines(a.title, a.performer, a.duration);
  }

  /** The extraction succeeded and the size of the file was read, after the wait message was posted. */
  predicate Measured(o: Oracle) {
    o.wait.Done? && o.extract.Done? && o.size.Done?
  }

  /** The run reaches the size-rejection branch. */
  predicate Oversize(o: Oracle) {
    Measured(o) && TooLarge(o.size.value)
  }

  /** Every call on the way to the audio reply succeeds and the file passes the gate. */
  predicate Deliverable(o: Oracle) {
    Measured(o) && !TooLarge(o.size.value) && o.deleteWait.Done? && o.audio.Done?
  }

  /**
   * Where the try block (lines 26-72) leaves things: its effects, the fault in
   * flight, whether it returned early at line 48, whether `wait_msg` is still
   * held, whether `audio_file` was assigned and whether the file is on disk.
   */
  datatype TryEnd = TryEnd(
    trace: seq<Effect>, raised: Option<Fault>, returned: bool,
    waitHeld: bool, fileNamed: bool, fileLeft: bool)

  /** The try block as a table of the first call that fails. */
  function TryBlock(o: Oracle): TryEnd {
    if o.wait.Raise? then
      TryEnd([], Some(o.wait.fault), false, false, false, false)
    else if o.extract.Raise? then
      TryEnd([Posted(WaitText)], Some(o.extract.fault), false, true, false, false)
    else if o.size.Raise? then
      TryEnd([Posted(WaitText), FileWritten], Some(o.size.fault), false, true, true, true)
    else if TooLarge(o.size.value) then
      OversizeBranch(o)
    else
      DeliverBranch(o, AudioFor(o.extract.value))
  }

  /** Lines 44-48: the size text, the removal of the file, the early return. */
  function OversizeBranch(o: Oracle): TryEnd {
    var written := [Posted(WaitText), FileWritten];
    if o.sizeReply.Raise? then
      TryEnd(written, Some(o.sizeReply.fault), false, true, true, true)
    else if o.removeInline.Raise? then
      TryEnd(written + [Posted(SizeText)], Some(o.removeInline.fault), false, true, true, true)
    else
      TryEnd(written + [Posted(SizeText), FileRemoved], None, true, true, true, false)
  }

  /** Lines 50-72: delete the wait message, send `reply` (the audio built from the metadata), remove the file. */
  function DeliverBranch(o: Oracle, reply: Audio): TryEnd {
    var written := [Posted(WaitText), FileWritten];
    if o.deleteWait.Raise? then
      TryEnd(written, Some(o.deleteWait.fault), false, true, true, true)
    else if o.audio.Raise? then
      TryEnd(written + [WaitDeleted], Some(o.audio.fault), false, false, true, true)
    else
      var sent := written + [WaitDeleted, AudioSent(reply)];
      if o.removeInline.Raise? then
        TryEnd(sent, Some(o.removeInline.fault), false, false, true, true)
      else
        TryEnd(sent + [FileRemoved], None, false, false, true, false)
  }

  /** Where the except handlers (lines 74-86) leave things: effects, a fault they raise, the wait message. */
  datatype ExceptEnd = ExceptEnd(trace: seq<Effect>, escaped: Option<Fault>, waitLeft: bool)

  /**
   * The handler for the fault in flight, after the effects `trace`: delete the
   * wait message if `wait_msg` is still held, then post the network text for
   * ConnectError.
   */
  function Except(trace: seq<Effect>, raised: Option<Fault>, waitHeld: bool, o: Oracle): ExceptEnd {
    if raised.None? then
      ExceptEnd(trace, None, waitHeld)
    else if waitHeld && o.deleteInHandler.Raise? then
      ExceptEnd(trace, Some(o.deleteInHandler.fault), true)
    else
      var deleted := trace + (if waitHeld then [WaitDeleted] else []);
      if raised.value != ConnectError then
        ExceptEnd(deleted, None, false)
      else if o.netReply.Raise? then
        ExceptEnd(deleted, Some(o.netReply.fault), false)
      else
        ExceptEnd(deleted + [Posted(NetworkText)], None, false)
  }

  /** The end of one run of download_audio: effects, exit, and whether the file and the wait message remain. */
  datatype RunEnd = RunEnd(trace: seq<Effect>, exit: Exit, fileLeft: bool, waitLeft: bool)

  /** download_audio as a function of the message and of the outcome of every call it makes. */
  function Run(message: string, o: Oracle): RunEnd {
    if !Admitted(Strip(message)) then
      if o.reject.Done? then RunEnd([Posted(DomainRejectText)], Rejected, false, false)
      else RunEnd([], Escaped(o.reject.fault), false, false)
    else
      Attempt(o)
  }

  /** Lines 26-92 for an admitted message: the try block, then the handler that runs and the finally block. */
  function Attempt(o: Oracle): RunEnd {
    Finish(o, TryBlock(o))
  }

  /** The except handler for the fault `t` ends with, if any, and the finally block (lines 74-92). */
  function Finish(o: Oracle, t: TryEnd): RunEnd {
    var h := Except(t.trace, t.raised, t.waitHeld, o);
    // finally: removal is attempted only when the file was named and is still there
    var removed := t.fileNamed && t.fileLeft && o.removeFinally.Done?;
    var trace := h.trace + (if removed then [FileRemoved] else []);
    var exit :=
      if h.escaped.Some? then Escaped(h.escaped.value)
      else if t.raised.Some? then Handled(t.raised.value)
      else if t.returned then SizeGated
      else Completed;
    RunEnd(trace, exit, t.fileLeft && !removed, h.waitLeft)
  }

  /** The five texts of the bot are pairwise different (they differ in length). */
  lemma TextsDistinct()
    ensures DomainRejectText != NudgeText && DomainRejectText != WaitText
    ensures DomainRejectText != SizeText && DomainRejectText != NetworkText
    ensures NudgeText != WaitText && NudgeText != SizeText && NudgeText != NetworkText
    ensures WaitText != SizeText && WaitText != NetworkText && SizeText != NetworkText
  {
    assert |DomainRejectText| == 33 && |NudgeText| == 30 && |WaitText| == 19;
    assert |SizeText| == 40 && |NetworkText| == 46;
  }

  /**
   * What every way through the try block guarantees about where it ends,
   * in six groups: the temporary file, the wait message, the early return,
   * the texts, the audio and the order of effects, where `reply` is the
   * audio built from the metadata.
   */
  ghost predicate TryShape(o: Oracle, t: TryEnd, reply: Audio) {
    FileShape(o, t) && WaitShape(o, t) && ReturnShape(o, t) && TextShape(o, t) &&
    AudioShape(o, t, reply) && OrderShape(t, reply)
  }

  /** The file is written once, after a successful extraction, and removed at most once; `fileLeft` says whether it remains. */
  ghost predicate FileShape(o: Oracle, t: TryEnd) {
    (t.fileNamed <==> o.wait.Done? && o.extract.Done?) &&
    (t.fileLeft ==> t.fileNamed) &&
    (FileWritten in t.trace <==> t.fileNamed) &&
    multiset(t.trace)[FileWritten] == (if t.fileNamed then 1 else 0) &&
    multiset(t.trace)[FileRemoved] == (if t.fileNamed && !t.fileLeft then 1 else 0)
  }

  /** The wait message is posted when posting succeeds, deleted at most once, and held until deleted. */
  ghost predicate WaitShape(o: Oracle, t: TryEnd) {
    (Posted(WaitText) in t.trace <==> o.wait.Done?) &&
    (t.waitHeld <==> Posted(WaitText) in t.trace && WaitDeleted !in t.trace) &&
    multiset(t.trace)[WaitDeleted] <= 1
  }

  /** The early return happens only for an oversize file, and the block ends normally only after a delivery. */
  ghost predicate ReturnShape(o: Oracle, t: TryEnd) {
    (t.returned <==> Oversize(o) && o.sizeReply.Done? && o.removeInline.Done?) &&
    (t.returned ==> t.raised.None? && t.waitHeld && !t.fileLeft) &&
    (t.raised.None? && !t.returned <==> Deliverable(o) && o.removeInline.Done?) &&
    (t.raised.None? && !t.returned ==> !t.fileLeft && !t.waitHeld)
  }

  /** The only texts are the wait text and, for an oversize file, one size text. */
  ghost predicate TextShape(o: Oracle, t: TryEnd) {
    (forall e :: e in t.trace && e.Posted? ==> e.text == WaitText || e.text == SizeText) &&
    (Posted(SizeText) in t.trace ==> Oversize(o)) &&
    (Oversize(o) ==> multiset(t.trace)[Posted(SizeText)] == (if o.sizeReply.Done? then 1 else 0))
  }

  /** The audio `reply` is sent only for a deliverable file, and then exactly once. */
  ghost predicate AudioShape(o: Oracle, t: TryEnd, reply: Audio) {
    (forall e :: e in t.trace && e.AudioSent? ==> Deliverable(o) && e == AudioSent(reply)) &&
    (Deliverable(o) ==> multiset(t.trace)[AudioSent(reply)] == 1)
  }

  /**
   * The audio comes fourth, right after the wait message, the file and the
   * deletion of the wait message; a block that ends normally has sent it and
   * removed the file.
   */
  ghost predicate OrderShape(t: TryEnd, reply: Audio) {
    (forall i :: 0 <= i < |t.trace| && t.trace[i].AudioSent? ==>
      i == 3 && t.trace[..3] == [Posted(WaitText), FileWritten, WaitDeleted]) &&
    (t.raised.None? && !t.returned ==>
      t.trace == [Posted(WaitText), FileWritten, WaitDeleted, AudioSent(reply), FileRemoved])
  }

  lemma OversizeShape(o: Oracle, reply: Audio)
    requires Oversize(o)
    ensures TryShape(o, OversizeBranch(o), reply)
  {
    OversizeFileWait(o);
    OversizeTexts(o);
    OversizeAudio(o, reply);
  }

  lemma OversizeFileWait(o: Oracle)
    requires Oversize(o)
    ensures FileShape(o, OversizeBranch(o)) && WaitShape(o, OversizeBranch(o))
    ensures ReturnShape(o, OversizeBranch(o))
  {
    TextsDistinct();
  }

  lemma OversizeTexts(o: Oracle)
    requires Oversize(o)
    ensures TextShape(o, OversizeBranch(o))
  {
    TextsDistinct();
  }

  lemma OversizeAudio(o: Oracle, reply: Audio)
    requires Oversize(o)
    ensures AudioShape(o, OversizeBranch(o), reply) && OrderShape(OversizeBranch(o), reply)
  {
  }

  lemma DeliverShape(o: Oracle, reply: Audio)
    requires Measured(o) && !TooLarge(o.size.value)
    ensures TryShape(o, DeliverBranch(o, reply), reply)
  {
    TextsDistinct();
    DeliverFileWait(o, reply);
    DeliverTexts(o, reply);
    DeliverAudio(o, reply);
    DeliverOrder(o, reply);
  }

  lemma DeliverFileWait(o: Oracle, reply: Audio)
    requires Measured(o) && !TooLarge(o.size.value)
    ensures FileShape(o, DeliverBranch(o, reply)) && WaitShape(o, DeliverBranch(o, reply))
    ensures ReturnShape(o, DeliverBranch(o, reply))
  {
    TextsDistinct();
  }

  lemma DeliverTexts(o: Oracle, reply: Audio)
    requires Measured(o) && !TooLarge(o.size.value)
    ensures TextShape(o, DeliverBranch(o, reply))
  {
  }

  lemma DeliverAudio(o: Oracle, reply: Audio)
    requires Measured(o) && !TooLarge(o.size.value)
    ensures AudioShape(o, DeliverBranch(o, reply), reply)
  {
  }

  lemma DeliverOrder(o: Oracle, reply: Audio)
    requires Measured(o) && !TooLarge(o.size.value)
    ensures OrderShape(DeliverBranch(o, reply), reply)
  {
  }

  /** Every way through the try block has the shape above, for the reply built from the extracted metadata. */
  lemma TryBlockShape(o: Oracle, reply: Audio)
    requires o.extract.Done? ==> reply == AudioFor(o.extract.value)
    ensures TryShape(o, TryBlock(o), reply)
  {
    if !Measured(o) {
      EarlyShape(o, reply);
    } else if TooLarge(o.size.value) {
      OversizeShape(o, reply);
    } else {
      DeliverShape(o, reply);
    }
  }

  /** The wait message, the extraction or the size query failed: the block stops there. */
  lemma EarlyShape(o: Oracle, reply: Audio)
    requires !Measured(o)
    ensures TryShape(o, TryBlock(o), reply)
  {
    TextsDistinct();
  }

  /**
   * What the handler and the finally block append to the try block's
   * effects: the deletion of a held wait message, then the network text for
   * ConnectError, then the removal of a file still on disk.
   */
  ghost function Added(o: Oracle, t: TryEnd): seq<Effect> {
    var deleted := t.raised.Some? && t.waitHeld && o.deleteInHandler.Done?;
    var told := t.raised == Some(ConnectError) && (!t.waitHeld || o.deleteInHandler.Done?) && o.netReply.Done?;
    var removed := t.fileNamed && t.fileLeft && o.removeFinally.Done?;
    (if deleted then [WaitDeleted] else []) +
    (if told then [Posted(NetworkText)] else []) +
    (if removed then [FileRemoved] else [])
  }

  /** The handler and the finally block only append. */
  lemma FinishTrace(o: Oracle, t: TryEnd)
    ensures Finish(o, t).trace == t.trace + Added(o, t)
  {
  }

  /** How the run ends, and what remains, after the handler and the finally block. */
  lemma FinishEnd(o: Oracle, t: TryEnd)
    ensures var escaped := t.raised.Some? && ((t.waitHeld && o.deleteInHandler.Raise?) ||
        (t.raised.value == ConnectError && (!t.waitHeld || o.deleteInHandler.Done?) && o.netReply.Raise?));
      Finish(o, t).exit == (
        if escaped then Escaped(if t.waitHeld && o.deleteInHandler.Raise? then o.deleteInHandler.fault else o.netReply.fault)
        else if t.raised.Some? then Handled(t.raised.value)
        else if t.returned then SizeGated
        else Completed) &&
      Finish(o, t).fileLeft == (t.fileLeft && !(t.fileNamed && o.removeFinally.Done?)) &&
      Finish(o, t).waitLeft == (t.waitHeld && (t.raised.None? || o.deleteInHandler.Raise?))
  {
  }

  // Each property of a run, for any end of the try block with the shape above.

  lemma FinishPostedTexts(o: Oracle, t: TryEnd)
    requires TextShape(o, t) && WaitShape(o, t)
    ensures forall e :: e in Finish(o, t).trace && e.Posted? ==>
      e.text == WaitText || e.text == SizeText || e.text == NetworkText
    ensures Posted(WaitText) in Finish(o, t).trace ==> o.wait.Done?
    ensures Posted(SizeText) in Finish(o, t).trace ==> Oversize(o)
    ensures Posted(NetworkText) in Finish(o, t).trace ==> Finish(o, t).exit == Handled(ConnectError)
  {
    FinishTrace(o, t);
    FinishEnd(o, t);
    TextsDistinct();
    assert Posted(NetworkText) !in t.trace;
  }

  lemma FinishAudio(o: Oracle, t: TryEnd, reply: Audio)
    requires AudioShape(o, t, reply)
    ensures forall e :: e in Finish(o, t).trace && e.AudioSent? ==> Deliverable(o) && e == AudioSent(reply)
    ensures Deliverable(o) ==> multiset(Finish(o, t).trace)[AudioSent(reply)] == 1
  {
    FinishTrace(o, t);
    FinishEnd(o, t);
  }

  lemma FinishOversizeEffects(o: Oracle, t: TryEnd)
    requires Oversize(o) && TextShape(o, t)
    requires forall e :: e in t.trace && e.AudioSent? ==> Deliverable(o)
    ensures forall e :: e in Finish(o, t).trace ==> !e.AudioSent?
    ensures multiset(Finish(o, t).trace)[Posted(SizeText)] == (if o.sizeReply.Done? then 1 else 0)
  {
    FinishTrace(o, t);
    TextsDistinct();
  }

  lemma FinishOversizeExit(o: Oracle, t: TryEnd)
    requires Oversize(o) && WaitShape(o, t) && ReturnShape(o, t)
    ensures Finish(o, t).exit == SizeGated <==> o.sizeReply.Done? && o.removeInline.Done?
    ensures Finish(o, t).exit == SizeGated ==>
      Finish(o, t).waitLeft && !Finish(o, t).fileLeft && WaitDeleted !in Finish(o, t).trace
  {
    FinishTrace(o, t);
    FinishEnd(o, t);
  }

  /** The handler and the finally block keep the try block's effects as a prefix and add no audio. */
  lemma FinishExtends(o: Oracle, t: TryEnd)
    ensures |t.trace| <= |Finish(o, t).trace| && Finish(o, t).trace[..|t.trace|] == t.trace
    ensures forall i :: |t.trace| <= i < |Finish(o, t).trace| ==> !Finish(o, t).trace[i].AudioSent?
  {
    FinishTrace(o, t);
    FinishEnd(o, t);
    var added := Added(o, t);
    assert forall e :: e in added ==> !e.AudioSent?;
    NoAudioAfter(t.trace, added);
  }

  /** Appending effects without an audio keeps the prefix and adds no audio. */
  lemma NoAudioAfter(x: seq<Effect>, y: seq<Effect>)
    requires forall e :: e in y ==> !e.AudioSent?
    ensures (x + y)[..|x|] == x
    ensures forall i :: |x| <= i < |x + y| ==> !(x + y)[i].AudioSent?
  {
    forall i | |x| <= i < |x + y| ensures !(x + y)[i].AudioSent? {
      assert (x + y)[i] == y[i - |x|];
    }
  }

  lemma FinishAudioOrder(o: Oracle, t: TryEnd, reply: Audio)
    requires OrderShape(t, reply)
    ensures forall i :: 0 <= i < |Finish(o, t).trace| && Finish(o, t).trace[i].AudioSent? ==>
      Finish(o, t).trace[..i] == [Posted(WaitText), FileWritten, WaitDeleted]
  {
    FinishExtends(o, t);
    var f := Finish(o, t);
    forall i | 0 <= i < |f.trace| && f.trace[i].AudioSent?
      ensures f.trace[..i] == [Posted(WaitText), FileWritten, WaitDeleted]
    {
      assert i < |t.trace|;
      assert t.trace[i] == f.trace[..|t.trace|][i];
      assert f.trace[..i] == f.trace[..|t.trace|][..i];
    }
  }

  lemma FinishCompleted(o: Oracle, t: TryEnd, reply: Audio)
    requires ReturnShape(o, t) && OrderShape(t, reply)
    ensures Finish(o, t).exit == Completed <==> Deliverable(o) && o.removeInline.Done?
    ensures Finish(o, t).exit == Completed ==>
      Finish(o, t).trace == [Posted(WaitText), FileWritten, WaitDeleted, AudioSent(reply), FileRemoved]
  {
    FinishTrace(o, t);
    FinishEnd(o, t);
  }

  lemma FinishFileLeft(o: Oracle, t: TryEnd)
    requires FileShape(o, t)
    ensures Finish(o, t).fileLeft <==> FileWritten in Finish(o, t).trace && FileRemoved !in Finish(o, t).trace
    ensures Finish(o, t).fileLeft ==> o.removeFinally.Raise?
  {
    FinishTrace(o, t);
    FinishEnd(o, t);
  }

  lemma FinishFileRemovedOnce(o: Oracle, t: TryEnd)
    requires FileShape(o, t)
    ensures multiset(Finish(o, t).trace)[FileRemoved] <= 1
    ensures FileWritten in Finish(o, t).trace ==> o.wait.Done? && o.extract.Done?
  {
    FinishTrace(o, t);
    FinishEnd(o, t);
  }

  lemma FinishWaitLeft(o: Oracle, t: TryEnd)
    requires WaitShape(o, t)
    ensures Finish(o, t).waitLeft <==> Posted(WaitText) in Finish(o, t).trace && WaitDeleted !in Finish(o, t).trace
  {
    FinishTrace(o, t);
    FinishEnd(o, t);
    TextsDistinct();
  }

  lemma FinishWaitDeletedOnce(o: Oracle, t: TryEnd)
    requires WaitShape(o, t)
    ensures multiset(Finish(o, t).trace)[WaitDeleted] <= 1
  {
    FinishTrace(o, t);
    FinishEnd(o, t);
  }

  lemma FinishWaitExit(o: Oracle, t: TryEnd)
    requires ReturnShape(o, t)
    ensures Finish(o, t).waitLeft ==> Finish(o, t).exit == SizeGated || o.deleteInHandler.Raise?
    ensures Finish(o, t).exit.Handled? ==> !Finish(o, t).waitLeft
  {
    FinishTrace(o, t);
    FinishEnd(o, t);
  }

  lemma FinishNetworkText(o: Oracle, t: TryEnd)
    requires TextShape(o, t)
    requires Finish(o, t).exit.Handled?
    ensures multiset(Finish(o, t).trace)[Posted(NetworkText)] ==
      (if Finish(o, t).exit.fault == ConnectError then 1 else 0)
  {
    FinishTrace(o, t);
    FinishEnd(o, t);
    TextsDistinct();
    assert Posted(NetworkText) !in t.trace;
  }

  lemma FinishOtherTexts(o: Oracle, t: TryEnd)
    requires TextShape(o, t)
    requires Finish(o, t).exit.Handled? && Finish(o, t).exit.fault != ConnectError
    ensures forall e :: e in Finish(o, t).trace && e.Posted? ==> e.text == WaitText || e.text == SizeText
  {
    FinishTrace(o, t);
    FinishEnd(o, t);
  }

  /** The facts every property of a run is proved from. */
  lemma Shapes(o: Oracle)
    ensures o.extract.Done? ==> TryShape(o, TryBlock(o), AudioFor(o.extract.value))
    ensures o.extract.Raise? ==> forall reply :: TryShape(o, TryBlock(o), reply)
  {
    TextsDistinct();
    if o.extract.Done? {
      TryBlockShape(o, AudioFor(o.extract.value));
    } else {
      forall reply ensures TryShape(o, TryBlock(o), reply) {
        TryBlockShape(o, reply);
      }
    }
  }

  /**
   * A message without either domain gets the one rejection text and nothing
   * else: no wait message, no extraction, no file.
   */
  lemma RefusedMessage(message: string, o: Oracle)
    requires !Admitted(Strip(message))
    ensures Run(message, o).trace == (if o.reject.Done? then [Posted(DomainRejectText)] else [])
    ensures Run(message, o).exit == (if o.reject.Done? then Rejected else Escaped(o.reject.fault))
    ensures !Run(message, o).fileLeft && !Run(message, o).waitLeft
  {
  }

  /** The only texts an admitted run posts, and the condition under which each appears. */
  lemma PostedTexts(o: Oracle)
    ensures forall e :: e in Attempt(o).trace && e.Posted? ==>
      e.text == WaitText || e.text == SizeText || e.text == NetworkText
    ensures Posted(WaitText) in Attempt(o).trace ==> o.wait.Done?
    ensures Posted(SizeText) in Attempt(o).trace ==> Oversize(o)
    ensures Posted(NetworkText) in Attempt(o).trace ==> Attempt(o).exit == Handled(ConnectError)
  {
    Shapes(o);
    FinishPostedTexts(o, TryBlock(o));
  }

  /** An admitted message never takes the rejection branch. */
  lemma AdmittedNotRejected(message: string, o: Oracle)
    requires Admitted(Strip(message))
    ensures Run(message, o).exit != Rejected
    ensures Posted(DomainRejectText) !in Run(message, o).trace
  {
    PostedTexts(o);
    TextsDistinct();
  }

  /**
   * The size gate: any audio that is sent is the reply built from the
   * extracted metadata, for a file of at most 45 MiB, after every earlier
   * call succeeded; and when all of that holds, exactly one audio is sent.
   */
  lemma NoOversizeDelivery(o: Oracle)
    ensures forall e :: e in Attempt(o).trace && e.AudioSent? ==>
      Deliverable(o) && e == AudioSent(AudioFor(o.extract.value))
    ensures Deliverable(o) ==> multiset(Attempt(o).trace)[AudioSent(AudioFor(o.extract.value))] == 1
  {
    Shapes(o);
    if o.extract.Done? {
      FinishAudio(o, TryBlock(o), AudioFor(o.extract.value));
    } else {
      FinishAudio(o, TryBlock(o), Audio([], [], 0, []));
    }
  }

  /**
   * A file over the limit gets the size text (once, if posting it succeeds)
   * and no audio; the run returns early exactly when the text and the removal
   * both succeed, and then the file is gone but the wait message stays.
   */
  lemma OversizeRun(o: Oracle)
    requires Oversize(o)
    ensures forall e :: e in Attempt(o).trace ==> !e.AudioSent?
    ensures multiset(Attempt(o).trace)[Posted(SizeText)] == (if o.sizeReply.Done? then 1 else 0)
    ensures Attempt(o).exit == SizeGated <==> o.sizeReply.Done? && o.removeInline.Done?
    ensures Attempt(o).exit == SizeGated ==>
      Attempt(o).waitLeft && !Attempt(o).fileLeft && WaitDeleted !in Attempt(o).trace
  {
    Shapes(o);
    FinishOversizeEffects(o, TryBlock(o));
    FinishOversizeExit(o, TryBlock(o));
  }

  /** The early return of line 48 happens only for a file over the limit. */
  lemma SizeGatedOnlyWhenOversize(o: Oracle)
    ensures Attempt(o).exit == SizeGated ==> Oversize(o)
  {
    Shapes(o);
  }

  /**
   * The audio comes right after the wait message, the file and the deletion
   * of the wait message, with nothing else before it.
   */
  lemma AudioAfterWaitDeleted(o: Oracle)
    ensures forall i :: 0 <= i < |Attempt(o).trace| && Attempt(o).trace[i].AudioSent? ==>
      Attempt(o).trace[..i] == [Posted(WaitText), FileWritten, WaitDeleted]
  {
    Shapes(o);
    if o.extract.Done? {
      FinishAudioOrder(o, TryBlock(o), AudioFor(o.extract.value));
    } else {
      FinishAudioOrder(o, TryBlock(o), Audio([], [], 0, []));
    }
  }

  /**
   * Cleanup: the file is on disk at the end exactly when it was written and
   * not removed, which only happens when the removal in the finally block
   * failed; it is removed at most once.
   */
  lemma FileCleanup(o: Oracle)
    ensures Attempt(o).fileLeft <==> FileWritten in Attempt(o).trace && FileRemoved !in Attempt(o).trace
    ensures Attempt(o).fileLeft ==> o.removeFinally.Raise?
    ensures multiset(Attempt(o).trace)[FileRemoved] <= 1
    ensures FileWritten in Attempt(o).trace ==> o.wait.Done? && o.extract.Done?
  {
    Shapes(o);
    FinishFileLeft(o, TryBlock(o));
    FinishFileRemovedOnce(o, TryBlock(o));
  }

  /**
   * The wait message is deleted at most once; it is left in the chat only on
   * the oversize return or when the handler's deletion fails; a handled
   * fault never leaves it.
   */
  lemma WaitMessageLifecycle(o: Oracle)
    ensures Attempt(o).waitLeft <==> Posted(WaitText) in Attempt(o).trace && WaitDeleted !in Attempt(o).trace
    ensures multiset(Attempt(o).trace)[WaitDeleted] <= 1
    ensures Attempt(o).waitLeft ==> Attempt(o).exit == SizeGated || o.deleteInHandler.Raise?
    ensures Attempt(o).exit.Handled? ==> !Attempt(o).waitLeft
  {
    Shapes(o);
    FinishWaitLeft(o, TryBlock(o));
    FinishWaitDeletedOnce(o, TryBlock(o));
    FinishWaitExit(o, TryBlock(o));
  }

  /**
   * Texts per handled fault: ConnectError adds exactly one network text,
   * DownloadError and any other fault add none.
   */
  lemma HandlerTexts(o: Oracle)
    requires Attempt(o).exit.Handled?
    ensures multiset(Attempt(o).trace)[Posted(NetworkText)] ==
      (if Attempt(o).exit.fault == ConnectError then 1 else 0)
    ensures Attempt(o).exit.fault != ConnectError ==>
      forall e :: e in Attempt(o).trace && e.Posted? ==> e.text == WaitText || e.text == SizeText
  {
    Shapes(o);
    FinishNetworkText(o, TryBlock(o));
    if Attempt(o).exit.fault != ConnectError {
      FinishOtherTexts(o, TryBlock(o));
    }
  }

  /**
   * A run completes exactly when every call on the way succeeds and the file
   * is within the limit; it then sends one audio and no text but the wait
   * message, and removes the file.
   */
  lemma CompletedRun(o: Oracle)
    ensures Attempt(o).exit == Completed <==> Deliverable(o) && o.removeInline.Done?
    ensures Attempt(o).exit == Completed ==>
      Attempt(o).trace == [Posted(WaitText), FileWritten, WaitDeleted, AudioSent(AudioFor(o.extract.value)), FileRemoved]
  {
    Shapes(o);
    if o.extract.Done? {
      FinishCompleted(o, TryBlock(o), AudioFor(o.extract.value));
    } else {
      FinishCompleted(o, TryBlock(o), Audio([], [], 0, []));
    }
  }

  /**
   * A failed removal in the finally block is logged and swallowed: whatever
   * it does, the run ends the same way, with the same effects (the try
   * block's and the handler's) apart from that one removal, and the same
   * wait message.
   */
  lemma RemovalFailureSwallowed(o: Oracle, r: Status)
    ensures Attempt(o.(removeFinally := r)).exit == Attempt(o).exit
    ensures Attempt(o.(removeFinally := r)).waitLeft == Attempt(o).waitLeft
    ensures TryBlock(o).trace <= Attempt(o.(removeFinally := r)).trace
    ensures var a, b := Attempt(o).trace, Attempt(o.(removeFinally := r)).trace;
      a == b || a == b + [FileRemoved] || b == a + [FileRemoved]
  {
    var o2 := o.(removeFinally := r);
    TryBlockIgnoresFinally(o, r);
    var t := TryBlock(o);
    FinishEnd(o, t);
    FinishEnd(o2, t);
    FinishExtends(o2, t);
    FinishTrace(o, t);
    FinishTrace(o2, t);
  }

  /** The try block does not reach the finally block's removal. */
  lemma TryBlockIgnoresFinally(o: Oracle, r: Status)
    ensures TryBlock(o.(removeFinally := r)) == TryBlock(o)
  {
    var o2 := o.(removeFinally := r);
    if Measured(o) && !TooLarge(o.size.value) {
      assert o2.extract == o.extract;
      assert DeliverBranch(o2, AudioFor(o.extract.value)) == DeliverBranch(o, AudioFor(o.extract.value));
    }
  }

  /** A fault leaves an admitted run only from inside an except handler. */
  lemma EscapeCauses(o: Oracle)
    requires Attempt(o).exit.Escaped?
    ensures o.deleteInHandler.Raise? || o.netReply.Raise?
  {
    Shapes(o);
  }
}
