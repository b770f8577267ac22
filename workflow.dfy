/**
 * The request workflow of the bot (download_audio and the admission branch
 * of handle_message), step by step: admit the message, post a wait message,
 * extract the audio to a temporary file, gate it on size, delete the wait
 * message, send the audio, and remove the temporary file in every case.
 *
 * The chat and the file system are a `Session` whose fields are the state
 * the workflow changes. Each call into the chat client, the extraction
 * library or the file system takes its outcome from an `Oracle`: it
 * succeeds or it raises one of the faults the workflow tells apart. The
 * try/except/finally of the source becomes explicit branching on those
 * outcomes, and each method is proved to do what the table in module
 * Request says.
 */
module Workflow {
  import opened Admission
  import opened Format
  import opened Request

  /** The chat of one request and the request's temporary file. */
  class Session {
    var fileExists: bool    // the temporary audio file is on disk
    var waitShown: bool     // the wait message is visible in the chat
    var trace: seq<Effect>  // every effect so far, oldest first

    /** The state before a request: no file, no wait message, nothing done. */
    predicate IsFresh()
      reads this
    {
      !fileExists && !waitShown && trace == []
    }

    constructor ()
      ensures IsFresh()
    {
      fileExists, waitShown, trace := false, false, [];
    }

    /** `reply_text(text)`. */
    method Post(text: string, o: Status)
      modifies this
      ensures trace == old(trace) + (if o.Done? then [Posted(text)] else [])
      ensures fileExists == old(fileExists) && waitShown == old(waitShown)
    {
      if o.Done? {
        trace := trace + [Posted(text)];
      }
    }

    /** `reply_text` of the wait message, which stays visible until deleted. */
    method PostWait(o: Status)
      modifies this
      ensures trace == old(trace) + (if o.Done? then [Posted(WaitText)] else [])
      ensures waitShown == (old(waitShown) || o.Done?)
      ensures fileExists == old(fileExists)
    {
      if o.Done? {
        trace := trace + [Posted(WaitText)];
        waitShown := true;
      }
    }

    /** `wait_msg.delete()`. */
    method DeleteWait(o: Status)
      requires waitShown
      modifies this
      ensures trace == old(trace) + (if o.Done? then [WaitDeleted] else [])
      ensures waitShown == o.Raise?
      ensures fileExists == old(fileExists)
    {
      if o.Done? {
        trace := trace + [WaitDeleted];
        waitShown := false;
      }
    }

    /** `extract_info(url, download=True)`: on success the audio file is written. */
    method Extract(o: Outcome<Info>)
      modifies this
      ensures trace == old(trace) + (if o.Done? then [FileWritten] else [])
      ensures fileExists == (old(fileExists) || o.Done?)
      ensures waitShown == old(waitShown)
    {
      if o.Done? {
        trace := trace + [FileWritten];
        fileExists := true;
      }
    }

    /** `reply_audio(...)`. */
    method SendAudio(a: Audio, o: Status)
      modifies this
      ensures trace == old(trace) + (if o.Done? then [AudioSent(a)] else [])
      ensures fileExists == old(fileExists) && waitShown == old(waitShown)
    {
      if o.Done? {
        trace := trace + [AudioSent(a)];
      }
    }

    /** `os.remove(audio_file)`, called only after `os.path.exists` said yes. */
    method RemoveFile(o: Status)
      requires fileExists
      modifies this
      ensures trace == old(trace) + (if o.Done? then [FileRemoved] else [])
      ensures fileExists == o.Raise?
      ensures waitShown == old(waitShown)
    {
      if o.Done? {
        trace := trace + [FileRemoved];
        fileExists := false;
      }
    }

    /** The try block of lines 26-72; `raised` is the exception in flight when it ends. */
    method Try(o: Oracle) returns (raised: Option<Fault>, returned: bool, waitMsg: bool, audioFile: bool)
      requires IsFresh()
      modifies this
      ensures raised == TryBlock(o).raised && returned == TryBlock(o).returned
      ensures waitMsg == TryBlock(o).waitHeld && audioFile == TryBlock(o).fileNamed
      ensures trace == TryBlock(o).trace && fileExists == TryBlock(o).fileLeft && waitShown == waitMsg
    {
      raised, returned, waitMsg, audioFile := None, false, false, false;
      PostWait(o.wait);
      if o.wait.Raise? {
        raised := Some(o.wait.fault);
        return;
      }
      waitMsg := true;
      Extract(o.extract);
      if o.extract.Raise? {
        raised := Some(o.extract.fault);
        return;
      }
      audioFile := true;
      if o.size.Raise? {
        raised := Some(o.size.fault);
      } else if TooLarge(o.size.value) {
        raised, returned := RejectOversize(o);
      } else {
        raised, waitMsg := Deliver(o);
      }
    }

    /** Lines 44-48, for a file over the limit. */
    method RejectOversize(o: Oracle) returns (raised: Option<Fault>, returned: bool)
      requires Oversize(o) && fileExists && waitShown && trace == [Posted(WaitText), FileWritten]
      modifies this
      ensures raised == OversizeBranch(o).raised && returned == OversizeBranch(o).returned
      ensures trace == OversizeBranch(o).trace && fileExists == OversizeBranch(o).fileLeft
      ensures waitShown
    {
      raised, returned := None, false;
      Post(SizeText, o.sizeReply);
      if o.sizeReply.Raise? {
        raised := Some(o.sizeReply.fault);
        return;
      }
      if fileExists {
        RemoveFile(o.removeInline);
        if o.removeInline.Raise? {
          raised := Some(o.removeInline.fault);
          return;
        }
      }
      returned := true;
    }

    /** Lines 50-72, for a file within the limit; `waitMsg` tells whether `wait_msg` is still held. */
    method Deliver(o: Oracle) returns (raised: Option<Fault>, waitMsg: bool)
      requires Measured(o) && !TooLarge(o.size.value)
      requires fileExists && waitShown && trace == [Posted(WaitText), FileWritten]
      modifies this
      ensures raised == DeliverBranch(o, AudioFor(o.extract.value)).raised && waitMsg == DeliverBranch(o, AudioFor(o.extract.value)).waitHeld
      ensures trace == DeliverBranch(o, AudioFor(o.extract.value)).trace && fileExists == DeliverBranch(o, AudioFor(o.extract.value)).fileLeft
      ensures waitShown == waitMsg
    {
      raised, waitMsg := None, true;
      DeleteWait(o.deleteWait);
      if o.deleteWait.Raise? {
        raised := Some(o.deleteWait.fault);
        return;
      }
      waitMsg := false;
      SendAudio(AudioFor(o.extract.value), o.audio);
      if o.audio.Raise? {
        raised := Some(o.audio.fault);
        return;
      }
      if fileExists {
        RemoveFile(o.removeInline);
        if o.removeInline.Raise? {
          raised := Some(o.removeInline.fault);
        }
      }
    }

    /** The except clauses of lines 74-86; `escaped` is a fault a handler itself raises. */
    method Handle(raised: Option<Fault>, waitMsg: bool, o: Oracle) returns (escaped: Option<Fault>)
      requires waitShown == waitMsg
      modifies this
      ensures var h := Except(old(trace), raised, waitMsg, o);
        trace == h.trace && escaped == h.escaped && waitShown == h.waitLeft
      ensures fileExists == old(fileExists)
    {
      escaped := None;
      if raised.None? {
        return;
      }
      if waitMsg {
        DeleteWait(o.deleteInHandler);
        if o.deleteInHandler.Raise? {
          escaped := Some(o.deleteInHandler.fault);
          return;
        }
      }
      if raised.value == ConnectError {
        Post(NetworkText, o.netReply);
        if o.netReply.Raise? {
          escaped := Some(o.netReply.fault);
        }
      }
    }

    /** download_audio (lines 17-92) for one message. */
    method DownloadAudio(message: string, o: Oracle) returns (exit: Exit)
      requires IsFresh()
      modifies this
      ensures trace == Run(message, o).trace && exit == Run(message, o).exit
      ensures fileExists == Run(message, o).fileLeft && waitShown == Run(message, o).waitLeft
    {
      var url := Strip(message);
      if !Admitted(url) {
        Post(DomainRejectText, o.reject);
        exit := if o.reject.Done? then Rejected else Escaped(o.reject.fault);
        return;
      }
      var raised, returned, waitMsg, audioFile := Try(o);
      var escaped := Handle(raised, waitMsg, o);
      // finally: a failed removal is logged and swallowed
      if audioFile && fileExists {
        RemoveFile(o.removeFinally);
      }
      exit :=
        if escaped.Some? then Escaped(escaped.value)
        else if raised.Some? then Handled(raised.value)
        else if returned then SizeGated
        else Completed;
    }

    /**
     * handle_message (lines 153-160): an admitted message goes to
     * download_audio, any other gets one nudge text.
     */
    method HandleMessage(text: string, reply: Status, o: Oracle) returns (exit: Exit)
      requires IsFresh()
      modifies this
      ensures !Admitted(text) ==>
        trace == (if reply.Done? then [Posted(NudgeText)] else []) && !fileExists && !waitShown &&
        exit == (if reply.Done? then Rejected else Escaped(reply.fault))
      ensures Admitted(text) ==>
        trace == Run(text, o).trace && exit == Run(text, o).exit &&
        fileExists == Run(text, o).fileLeft && waitShown == Run(text, o).waitLeft
      // The rejection branch of download_audio is unreachable from here.
      ensures Admitted(text) ==> exit != Rejected && Posted(DomainRejectText) !in trace
    {
      if Admitted(text) {
        StripPreservesAdmission(text);
        AdmittedNotRejected(text, o);
        exit := DownloadAudio(text, o);
      } else {
        Post(NudgeText, reply);
        exit := if reply.Done? then Rejected else Escaped(reply.fault);
      }
    }
  }
}
