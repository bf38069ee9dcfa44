/** The per-message edit throttle shared by helpers/merger.py (a 2 s window)
    and helpers/downloader.py (a 3 s window), and the progress callback of the
    Telegram download that feeds it. Clock readings (`time.time()`) are
    parameters; whether the chat accepts an edit is a parameter too. */
module Throttling {
  import opened Wrappers
  import opened Text

  /** The dictionary key of a status message: `f"{chat_id}_{message_id}"`. */
  function MessageKey(chat: int, id: int): string
  {
    IntStr(chat) + "_" + IntStr(id)
  }

  /** Distinct messages never share a throttle entry. */
  lemma MessageKeyInjective(chat1: int, id1: int, chat2: int, id2: int)
    requires MessageKey(chat1, id1) == MessageKey(chat2, id2)
    ensures chat1 == chat2 && id1 == id2
  {
    var a, b := IntStr(chat1), IntStr(chat2);
    assert '_' !in a && '_' !in b by {
      assert forall i :: 0 <= i < |a| ==> a[i] == '-' || IsDigit(a[i]);
      assert forall i :: 0 <= i < |b| ==> b[i] == '-' || IsDigit(b[i]);
    }
    SeparatorUnique(a, IntStr(id1), b, IntStr(id2), '_');
    IntStrInjective(chat1, chat2);
    IntStrInjective(id1, id2);
  }

  /** The module-level `last_edit_time` dictionary and its window. */
  class EditThrottle {
    const window: real
    var lastEdit: map<string, real>

    constructor (window: real)
      ensures this.window == window && lastEdit == map[]
    {
      this.window := window;
      lastEdit := map[];
    }

    /** `last_edit_time.get(key, 0)`. */
    function LastEdit(key: string): real
      reads this
    {
      if key in lastEdit then lastEdit[key] else 0.0
    }

    /** An edit at `now` is allowed: strictly more than the window has
        passed since the last delivered edit. */
    predicate Due(key: string, now: real)
      reads this
    {
      now - LastEdit(key) > window
    }

    /** `smart_progress_editor`: nothing without a message; otherwise the
        edit is attempted only when it is due, and the time is recorded only
        when the chat accepted it (`delivered`); other keys are untouched. */
    method Edit(message: Option<string>, now: real, delivered: bool) returns (attempted: bool)
      modifies this
      ensures attempted <==> message.Some? && old(Due(message.value, now))
      ensures lastEdit == if attempted && delivered then old(lastEdit)[message.value := now] else old(lastEdit)
      ensures attempted && delivered ==> LastEdit(message.value) - old(LastEdit(message.value)) > window
    {
      if message.None? {
        return false;
      }
      var key := message.value;
      var last := LastEdit(key);
      attempted := now - last > window;
      if attempted && delivered {
        lastEdit := lastEdit[key := now];
      }
    }
  }

  /** What one call of the download progress callback ends in. */
  datatype CallbackOutcome =
    | Skipped                      // throttled before any work
    | DivisionByZero               // `current / total` with a zero total
    | Forwarded(attempted: bool)   // handed to the editor, which did or did not edit

  /** The callback's own gate: too soon since the last edit and not finished. */
  predicate Throttled(throttle: EditThrottle, key: string, now: real, current: int, total: int)
    reads throttle
  {
    now - throttle.LastEdit(key) < throttle.window && current < total
  }

  /** `progress_callback` of the Telegram download as written: it records
      `now` as the message's last edit time before handing the text to
      `smart_progress_editor`, which reads the clock again (`editorNow`) and
      compares with that fresh stamp. */
  method DownloadProgressCallback(throttle: EditThrottle, key: string, now: real, editorNow: real,
                                  current: int, total: int, delivered: bool)
      returns (outcome: CallbackOutcome)
    modifies throttle
    ensures old(Throttled(throttle, key, now, current, total)) ==>
      outcome == Skipped && throttle.lastEdit == old(throttle.lastEdit)
    ensures !old(Throttled(throttle, key, now, current, total)) && total == 0 ==>
      outcome == DivisionByZero && throttle.lastEdit == old(throttle.lastEdit)[key := now]
    ensures !old(Throttled(throttle, key, now, current, total)) && total != 0 ==>
      var attempted := editorNow - now > throttle.window;
      && outcome == Forwarded(attempted)
      && throttle.lastEdit == old(throttle.lastEdit)[key := if attempted && delivered then editorNow else now]
  {
    if Throttled(throttle, key, now, current, total) {
      return Skipped;
    }
    throttle.lastEdit := throttle.lastEdit[key := now];
    if total == 0 {
      return DivisionByZero;
    }
    var attempted := throttle.Edit(Some(key), editorNow, delivered);
    outcome := Forwarded(attempted);
  }

  /** The callback as evidently intended: the gate as written, but the time
      is recorded by the editor alone, when the edit is delivered. */
  method DownloadProgressCallbackCorrected(throttle: EditThrottle, key: string, now: real, editorNow: real,
                                           current: int, total: int, delivered: bool)
      returns (outcome: CallbackOutcome)
    modifies throttle
    ensures old(Throttled(throttle, key, now, current, total)) ==>
      outcome == Skipped && throttle.lastEdit == old(throttle.lastEdit)
    ensures !old(Throttled(throttle, key, now, current, total)) && total == 0 ==>
      outcome == DivisionByZero && throttle.lastEdit == old(throttle.lastEdit)
    ensures !old(Throttled(throttle, key, now, current, total)) && total != 0 ==>
      var attempted := old(throttle.Due(key, editorNow));
      && outcome == Forwarded(attempted)
      && throttle.lastEdit == if attempted && delivered then old(throttle.lastEdit)[key := editorNow] else old(throttle.lastEdit)
  {
    if Throttled(throttle, key, now, current, total) {
      return Skipped;
    }
    if total == 0 {
      return DivisionByZero;
    }
    var attempted := throttle.Edit(Some(key), editorNow, delivered);
    outcome := Forwarded(attempted);
  }

  /** The download throttle of helpers/downloader.py: 3 seconds. */
  const DownloadWindow: real := 3.0

  /** As written, whatever edits came before, a callback whose editor reads
      the clock less than the window after the callback did never edits the
      message: the progress of a download is never shown. */
  method AsWrittenNeverEdits(prior: map<string, real>, key: string, now: real, editorNow: real,
                             current: int, total: int, delivered: bool)
      returns (outcome: CallbackOutcome)
    requires editorNow - now <= DownloadWindow
    ensures outcome != Forwarded(true)
  {
    var throttle := new EditThrottle(DownloadWindow);
    throttle.lastEdit := prior;
    outcome := DownloadProgressCallback(throttle, key, now, editorNow, current, total, delivered);
  }

  /** Corrected, a callback more than the window after the last delivered
      edit, with a non-zero total and the editor reading the clock no earlier,
      does edit the message. */
  method CorrectedEditsWhenDue(prior: map<string, real>, key: string, now: real, editorNow: real,
                               current: int, total: int, delivered: bool)
      returns (outcome: CallbackOutcome)
    requires total != 0 && editorNow >= now
    requires now - (if key in prior then prior[key] else 0.0) > DownloadWindow
    ensures outcome == Forwarded(true)
  {
    var throttle := new EditThrottle(DownloadWindow);
    throttle.lastEdit := prior;
    outcome := DownloadProgressCallbackCorrected(throttle, key, now, editorNow, current, total, delivered);
  }
}
