# MP3 download bot — a verified model of the request workflow

The bot answers Telegram text messages. It handles a message as a download request only when
the message mentions `youtube.com` or `youtu.be`. For such a request it:

1. posts a "⏳ Dowloading Mp3..." wait message;
2. lets yt_dlp extract the best audio stream into a temporary file;
3. refuses files over 45 MiB with a size text;
4. otherwise deletes the wait message and sends the audio, with a title (at most 64
   characters), a performer (at most 32) and a four-line caption that shows the duration as
   `minutes:ss`;
5. removes the temporary file.

A `DownloadError` is caught and logged without a text. A `ConnectError` gets a network-failure
text. Any other exception is caught and logged. Either way the wait message is deleted if it
is still held, and a `finally` block removes a temporary file that is still on disk.

The model has four modules:

- `Admission` (admission.dfy) holds the admission test. It models Python's `in` on strings
  and `str.strip()`, and proves that stripping never changes the decision. So the rejection
  branch of `download_audio` cannot be reached from `handle_message`.
- `Format` (format.dfy) holds the reply formatting: truncation with defaults, the decimal
  rendering behind `f"{minutes}:{seconds:02d}"` with a parser that reads it back, and the
  caption as the four lines joined by newlines, with Python's `split('\n')` to read it back.
- `Request` (request.dfy) specifies one run of `download_audio` as a function, `Run`, of the
  message and of an `Oracle`. The oracle has one field per external call: the chat replies
  and deletions, `extract_info`, `getsize`, `os.remove`. Each field says whether that call
  returns (with its value) or raises one of the three fault kinds. Call sites of which at
  most one is reached on a run share a field: `removeInline` serves the removals at lines 47
  and 72, and `deleteInHandler` the deletions at lines 77, 81 and 86. A run yields:
  - the ordered effects on the chat and the file system;
  - how it ends: rejected, size-gated, completed, a handled fault, or a fault raised inside
    a handler that leaves the function;
  - whether the file and the wait message remain.

  The workflow's promises are lemmas about `Run`. They are proved from the shape of every
  way through the try block, which is then combined with what the except handlers and the
  `finally` block append.
- `Workflow` (workflow.dfy) is the imperative version. A `Session` object holds the state
  the code changes: whether the temporary file exists, whether the wait message is shown, and
  the trace of effects. `DownloadAudio` runs the try block, the handler and the `finally`
  block as methods over that state. It is proved to produce exactly what `Run` specifies.
  `HandleMessage` adds the admission test of `handle_message`.

Two behaviours of the code to note:

- The oversize return at line 48 never deletes the wait message, so it stays in the chat.
  `Request.OversizeRun` proves that it stays.
- A partial file left by a failing `extract_info` is never removed, because `audio_file` is
  still `None` (line 41 is not reached). The model tracks only the file that
  `prepare_filename` names.

## Model

| member | source | states |
|---|---|---|
| Admission.Contains | mp3_download.py:22 | `pat in s` as a left-to-right scan of the start positions; `Admission.ContainsIff` states what it answers |
| Admission.Admitted | mp3_download.py:22 | a text is admitted exactly when `youtube.com` or `youtu.be` occurs in it at some index |
| Admission.Strip | mp3_download.py:18 | `str.strip()`: the result is a contiguous slice of the text that neither starts nor ends with whitespace, and everything cut off before and after it is whitespace |
| Admission.ContainsIff | mp3_download.py:22 | the left-to-right scan behind `pat in s` answers yes exactly when `pat` occurs in `s` at some index |
| Admission.ContainsStrip | mp3_download.py:18-22 | a non-empty pattern without whitespace occurs in the stripped text exactly when it occurs in the raw text |
| Admission.StripPreservesAdmission | mp3_download.py:18-22 | the admission test gives the same answer on the stripped text (download_audio) as on the raw text (handle_message, line 157) |
| Admission.EmbeddedDomainAdmitted | mp3_download.py:22 | any text that embeds one of the two domains is admitted |
| Admission.LinksAdmitted | mp3_download.py:22 | `https://youtu.be/<id>` and `https://www.youtube.com/watch?v=<id>` are admitted for every video id |
| Format.Truncate | mp3_download.py:55-57 | `s[:n]` is a prefix of `s` of length at most `n`; it is `s` itself when `s` is short enough and exactly `n` long otherwise |
| Format.SentTitle | mp3_download.py:55 | the sent title is a prefix of the metadata title: all of it when it fits in 64 characters, exactly 64 characters otherwise; `Audio` when the key is missing |
| Format.SentPerformer | mp3_download.py:57 | the performer is a prefix of the uploader: all of it when it fits in 32 characters, exactly 32 characters otherwise; `Unknown` when the key is missing |
| Format.NatToString | mp3_download.py:61 | `str(n)` is a non-empty string of digits with no leading zero, and `0` renders as exactly `0` |
| Format.ParseNatToString | mp3_download.py:61 | reading the decimal rendering of `n` gives back `n` |
| Format.ZeroPad2 | mp3_download.py:61 | `f"{n:02d}"` is digits, two of them for `n` below 100, and reads back as `n` |
| Format.DurationStr | mp3_download.py:59-61 | the duration text is minutes, a colon and a two-digit seconds field; the minutes field is exactly `str(d // 60)`, and the seconds read back as `d % 60`, which is below 60 |
| Format.DurationRoundTrip | mp3_download.py:59-61 | parsing the duration text gives back the duration, so minutes × 60 + seconds = d |
| Format.DurationExamples | mp3_download.py:59-61 | 0, 59, 60, 185 and 3661 seconds render as `0:00`, `0:59`, `1:00`, `3:05` and `61:01` |
| Format.Caption | mp3_download.py:68 | the caption as the four lines joined by newlines; `Format.CaptionText` and `Format.CaptionLines` state what it is |
| Format.LinesOfJoin | mp3_download.py:68 | splitting newline-joined lines that contain no newline gives back the lines |
| Format.CaptionText | mp3_download.py:68 | the caption is exactly the f-string: title line, uploader line, duration line and `Developer : @mengheang25`, separated by newlines |
| Format.CaptionLines | mp3_download.py:68 | when title and uploader contain no newline, the caption splits into exactly its four lines |
| Request.SizeGateBoundary | mp3_download.py:44 | the bound is 47185920 bytes: a file of exactly that size passes the gate and one byte more is refused |
| Request.AudioFor | mp3_download.py:55-68 | the audio reply built from the metadata; `Request.ReplyFields` and `Request.ReplyCaptionLines` state its fields |
| Request.ReplyFields | mp3_download.py:55-67 | the audio reply's title and performer are the metadata's (or `Audio` and `Unknown` when the key is missing) cut to exactly 64 and 32 characters when longer, its duration is the metadata's (0 when missing), and its `minutes:ss` text reads back as that duration |
| Request.ReplyCaptionLines | mp3_download.py:55-68 | the caption of the audio reply splits into the title, performer, duration and attribution lines |
| Request.TextsDistinct | mp3_download.py:23-82 | the rejection, wait, size and network texts (and the nudge at line 160) are pairwise different |
| Request.TryBlock | mp3_download.py:26-72 | the try block, ending at the first call that raises; `Request.TryBlockShape` states its shape |
| Request.OversizeBranch | mp3_download.py:44-48 | the size text, the removal of the file and the early return, ending at the first call that raises |
| Request.DeliverBranch | mp3_download.py:50-72 | the deletion of the wait message, the audio reply and the removal of the file, ending at the first call that raises |
| Request.Except | mp3_download.py:74-86 | the handler for the fault in flight: delete a held wait message, then post the network text for ConnectError; a fault it raises escapes |
| Request.Finish | mp3_download.py:74-92 | the handler, then the `finally` removal of a named file still on disk, and how the run ends |
| Request.Attempt | mp3_download.py:26-92 | an admitted run: the try block followed by `Request.Finish` |
| Request.Run | mp3_download.py:17-92 | one run of download_audio on a message; the `Request` lemmas below state what it promises |
| Request.TryBlockShape | mp3_download.py:26-72 | every way through the try block writes and removes the file at most once, posts the wait message when that succeeds, returns early only for an oversize file, posts no text but the wait and size texts, and sends the audio reply only for a deliverable file, fourth, right after deleting the wait message |
| Request.RefusedMessage | mp3_download.py:22-24 | a message without either domain gets the one rejection text and nothing else: no wait message, no extraction, no file |
| Request.AdmittedNotRejected | mp3_download.py:18-24 | an admitted message never ends rejected and never gets the rejection text |
| Request.PostedTexts | mp3_download.py:26-86 | an admitted run posts only the wait, size and network texts: the wait text only when posting it succeeded, the size text only for an oversize file, and the network text only when the run ends with a handled ConnectError |
| Request.NoOversizeDelivery | mp3_download.py:43-69 | an audio is sent only when every call up to it succeeded and the file is at most 45 MiB, and it is the reply built from the metadata; in that case exactly one audio is sent |
| Request.OversizeRun | mp3_download.py:44-48 | an oversize file gets no audio and one size text (none if posting it fails); the run returns early exactly when the text and the removal succeed, and then the file is gone but the wait message stays |
| Request.SizeGatedOnlyWhenOversize | mp3_download.py:44-48 | the early return happens only for a file over the limit |
| Request.AudioAfterWaitDeleted | mp3_download.py:50-69 | whenever the audio is sent, the effects before it are exactly: wait message posted, file written, wait message deleted |
| Request.FileCleanup | mp3_download.py:87-92 | the file remains at the end exactly when it was written and never removed, which needs the removal in the `finally` block to fail; it is removed at most once and written only after a successful extraction |
| Request.WaitMessageLifecycle | mp3_download.py:50-86 | the wait message is deleted at most once; it remains exactly when it was posted and not deleted, which happens only on the oversize return or when the handler's deletion fails; a handled fault never leaves it |
| Request.HandlerTexts | mp3_download.py:74-86 | a handled ConnectError adds exactly one network text; a handled DownloadError or other fault adds no text at all |
| Request.CompletedRun | mp3_download.py:50-72 | a run completes exactly when every call succeeds and the file is within the limit, and then its effects are exactly: wait posted, file written, wait deleted, audio sent, file removed |
| Request.EscapeCauses | mp3_download.py:74-86 | for an admitted message, a fault leaves download_audio only when a handler's own deletion or network text raises |
| Request.RemovalFailureSwallowed | mp3_download.py:87-92 | the outcome of the removal in the `finally` block changes neither how the run ends nor the wait message; the effects of the try block and the handler are the same, and the traces differ at most by that one removal |
| Workflow.Session.constructor | mp3_download.py:19-20 | a new session has no file, no wait message and no effects |
| Workflow.Session.Post | mp3_download.py:23 | a reply that succeeds appends its text to the trace and changes nothing else |
| Workflow.Session.PostWait | mp3_download.py:28 | posting the wait message appends it and marks it shown, if the reply succeeds |
| Workflow.Session.DeleteWait | mp3_download.py:51 | deleting the shown wait message appends the deletion and clears it, if the call succeeds |
| Workflow.Session.Extract | mp3_download.py:40-41 | a successful extraction writes the file and records it |
| Workflow.Session.SendAudio | mp3_download.py:63-69 | a successful audio reply appends the sent audio |
| Workflow.Session.RemoveFile | mp3_download.py:47 | removing an existing file appends the removal and clears it, if `os.remove` succeeds |
| Workflow.Session.Try | mp3_download.py:26-72 | the try block leaves the trace, file, wait message, fault in flight and early-return flag that `TryBlock` specifies |
| Workflow.Session.RejectOversize | mp3_download.py:44-48 | the size branch posts the size text, removes the file and returns early, stopping at the first call that raises |
| Workflow.Session.Deliver | mp3_download.py:50-72 | the delivery branch deletes the wait message, sends the reply built from the metadata and removes the file, stopping at the first call that raises and keeping the wait handle when its deletion fails |
| Workflow.Session.Handle | mp3_download.py:74-86 | the handler deletes a held wait message and, for ConnectError, posts the network text; a fault it raises itself escapes |
| Workflow.Session.DownloadAudio | mp3_download.py:17-92 | one run of download_audio leaves exactly the effects, exit, file and wait message that `Run` specifies, so every lemma about `Run` holds of it |
| Workflow.Session.HandleMessage | mp3_download.py:153-160 | a message without either domain gets exactly the nudge text; an admitted one runs download_audio, never reaches its rejection branch and never gets the rejection text |

## Left out

- Bot wiring and startup (lines 166-187) and the framework's error handler (lines 162-164) are not modelled: they are plumbing. A fault that leaves download_audio ends the model as the `Escaped` exit.
- The `/start`, `/help` and `/about` texts (lines 94-151) are static templates. The "50MB" in the help text (line 131) is documentation; the enforced bound is the 45 MiB check.
- yt_dlp is an oracle that returns the metadata or raises, including its options and `outtmpl` naming (lines 30-41). The `prepare_filename` call is folded into the extraction outcome. The model assumes the file it names is the one written, so `os.path.exists` is true until the file is removed.
- The real file system, the file contents, `open` (folded into the audio reply's outcome) and the Telegram network calls are modelled only as the session's flags and its trace of effects.
- async scheduling, concurrent requests, logging (lines 9-13, 75, 79, 84, 92) and the token (line 15) are left out.
- `Request.Info`: the duration is a natural number or missing. A float duration would make line 61 raise into the generic handler, and a `title` or `uploader` present with the value `None` would make the slicing at lines 55 and 57 raise, and a `duration` present as `None` would make the `//` at line 59 raise; none of these is modelled.
- Files left half-written by a failing `extract_info` are not tracked, because the code never names them (see above).
