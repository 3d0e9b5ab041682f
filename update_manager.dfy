/**
 * The stateful part of `updater.py`: the modal `_UpdateDialog` and the `UpdateManager`'s toast,
 * snooze and download fields with its per-frame `pump`. The clock is a parameter; the check and
 * download threads are outside the model, so what they hand over arrives as parameters of
 * `Pump` (the pending notice and status) and as the manager's download fields.
 */
module UpdaterState {
  import opened Wrappers
  import opened Text
  import opened Updater

  // ---------------------------------------------------------------- dialog

  /** What handling an event asks of the manager or the system. */
  datatype Effect = NoEffect | Snooze(version: string) | Download(url: string) | OpenReleases | StartCheck

  /** An event as the dialog sees it: a left click carries the regions it falls in. */
  datatype DialogEvent =
    | EscapeKey
    | LeftClick(inPanel: bool, onCheckbox: bool, onDownload: bool, onReleases: bool, onSkip: bool)
    | OtherEvent

  /** The fields of the dialog that its event handler changes. */
  datatype DialogFlags = DialogFlags(
    visible: bool, requestQuit: bool, snoozeChecked: bool,
    downloadRequested: bool, exitWhenDownloadDone: bool)

  /** The effect of `_request_download`: a download of the latest entry's URL, if there is one. */
  function RequestDownload(st: UpdateStatus, f: DialogFlags): (DialogFlags, Effect) {
    var f1 := if st.latest.Some? then f.(downloadRequested := true) else f;
    var eff := if st.latest.Some? then Download(st.latest.value.downloadUrl) else NoEffect;
    (if st.currentDeprecated then f1.(exitWhenDownloadDone := true) else f1, eff)
  }

  /**
   * `_UpdateDialog.handle_event` as a value: the new flags, whether the event is consumed, and
   * the callback it triggers. Clicks are tested in order: outside the panel, the snooze box
   * (not offered when deprecated), the download button (while no download is requested), the
   * releases button, the skip button.
   */
  function DialogStep(st: UpdateStatus, f: DialogFlags, ev: DialogEvent): (r: (DialogFlags, bool, Effect))
    ensures !r.1 ==> r.0 == f && r.2 == NoEffect
    ensures r.2 != NoEffect ==> f.visible && r.1
    ensures r.0.requestQuit ==> f.requestQuit || st.currentDeprecated
    ensures r.2.Snooze? ==> && !st.currentDeprecated && st.latest.Some?
                            && r.2.version == st.latest.value.version && !r.0.visible
  {
    if !f.visible then (f, false, NoEffect)
    else match ev
      case EscapeKey =>
        (f.(requestQuit := f.requestQuit || st.currentDeprecated, visible := false), true, NoEffect)
      case OtherEvent => (f, true, NoEffect)
      case LeftClick(inPanel, onCheckbox, onDownload, onReleases, onSkip) =>
        if !inPanel then (f, true, NoEffect)
        else if !st.currentDeprecated && onCheckbox then (f.(snoozeChecked := !f.snoozeChecked), true, NoEffect)
        else if onDownload && !f.downloadRequested then
          var (f1, eff) := RequestDownload(st, f);
          (f1, true, eff)
        else if onReleases then
          (f.(requestQuit := f.requestQuit || st.currentDeprecated, visible := false), true, OpenReleases)
        else if onSkip then
          if st.currentDeprecated then (f.(requestQuit := true, visible := false), true, NoEffect)
          else
            var eff := if f.snoozeChecked && st.latest.Some? then Snooze(st.latest.value.version) else NoEffect;
            (f.(visible := false), true, eff)
        else (f, true, NoEffect)
  }

  /** A hidden dialog ignores everything; a visible one is modal and consumes every event. */
  lemma DialogModal(st: UpdateStatus, f: DialogFlags, ev: DialogEvent)
    ensures !f.visible ==> DialogStep(st, f, ev) == (f, false, NoEffect)
    ensures f.visible ==> DialogStep(st, f, ev).1
  {
  }

  /**
   * For a deprecated version the snooze box never toggles and nothing is snoozed, and Escape,
   * the releases button and the skip button all close the dialog and ask the game to quit.
   */
  lemma DeprecatedDialog(st: UpdateStatus, f: DialogFlags, ev: DialogEvent)
    requires st.currentDeprecated && f.visible
    ensures DialogStep(st, f, ev).0.snoozeChecked == f.snoozeChecked
    ensures !DialogStep(st, f, ev).2.Snooze?
    ensures ev.EscapeKey? ==> DialogStep(st, f, ev).0.requestQuit && !DialogStep(st, f, ev).0.visible
    ensures ev.LeftClick? && ev.inPanel && !(ev.onDownload && !f.downloadRequested) && (ev.onReleases || ev.onSkip)
            ==> DialogStep(st, f, ev).0.requestQuit && !DialogStep(st, f, ev).0.visible
  {
  }

  /** A version is snoozed only by skipping with the box checked, and then it is the latest version. */
  lemma SnoozeOnlyFromSkip(st: UpdateStatus, f: DialogFlags, ev: DialogEvent)
    requires DialogStep(st, f, ev).2.Snooze?
    ensures f.visible && f.snoozeChecked && !st.currentDeprecated && ev.LeftClick? && ev.onSkip
    ensures st.latest.Some? && DialogStep(st, f, ev).2.version == st.latest.value.version
    ensures !DialogStep(st, f, ev).0.visible
  {
  }

  /** A download is requested at most once: while one is requested the button does nothing. */
  lemma DownloadOnce(st: UpdateStatus, f: DialogFlags, ev: DialogEvent)
    requires f.downloadRequested
    ensures !DialogStep(st, f, ev).2.Download?
    ensures DialogStep(st, f, ev).0.downloadRequested
  {
  }

  /** A click on the enabled download button of a dialog with an entry starts that entry's download. */
  lemma DownloadClick(st: UpdateStatus, f: DialogFlags, checkbox: bool, releases: bool, skip: bool)
    requires f.visible && !f.downloadRequested && st.latest.Some?
    requires st.currentDeprecated || !checkbox
    ensures var (f1, consumed, eff) := DialogStep(st, f, LeftClick(true, checkbox, true, releases, skip));
            && consumed && eff == Download(st.latest.value.downloadUrl)
            && f1.downloadRequested && f1.visible
            && f1.exitWhenDownloadDone == (f.exitWhenDownloadDone || st.currentDeprecated)
  {
  }

  /** The download button as `draw` shows it: hidden dialogs draw nothing. */
  datatype Button = Hidden | Shown(caption: string, enabled: bool)

  /** `_UpdateDialog`: the modal dialog offering an update. */
  class UpdateDialog {
    const status: UpdateStatus
    var visible: bool
    var requestQuit: bool
    var snoozeChecked: bool
    var downloadDone: bool
    var downloadPath: Option<string>
    var downloadError: Option<string>
    var downloadRequested: bool
    var exitWhenDownloadDone: bool

    /** The flags the event handler works on. */
    function Flags(): DialogFlags
      reads this
    {
      DialogFlags(visible, requestQuit, snoozeChecked, downloadRequested, exitWhenDownloadDone)
    }

    /** A dialog opens visible, unchecked, with no download. */
    constructor(status: UpdateStatus)
      ensures this.status == status
      ensures Flags() == DialogFlags(true, false, false, false, false)
      ensures !downloadDone && downloadPath.None? && downloadError.None?
    {
      this.status := status;
      visible := true;
      requestQuit := false;
      snoozeChecked := false;
      downloadDone := false;
      downloadPath := None;
      downloadError := None;
      downloadRequested := false;
      exitWhenDownloadDone := false;
    }

    /**
     * `set_download_state`: the download fields take the worker's values; a deprecated dialog
     * whose download was to end the game closes and asks to quit once the download is done.
     */
    method SetDownloadState(done: bool, path: Option<string>, error: Option<string>)
      modifies this
      ensures downloadDone == done && downloadPath == path && downloadError == error
      ensures var quit := status.currentDeprecated && exitWhenDownloadDone && done;
              && requestQuit == (old(requestQuit) || quit)
              && visible == (old(visible) && !quit)
      ensures snoozeChecked == old(snoozeChecked) && downloadRequested == old(downloadRequested)
      ensures exitWhenDownloadDone == old(exitWhenDownloadDone)
    {
      downloadDone := done;
      downloadPath := path;
      downloadError := error;
      if status.currentDeprecated && exitWhenDownloadDone && downloadDone {
        requestQuit := true;
        visible := false;
      }
    }

    /** `handle_event`: the flags step as `DialogStep` says; the download fields stay. */
    method HandleEvent(ev: DialogEvent) returns (consumed: bool, effect: Effect)
      modifies this
      ensures (Flags(), consumed, effect) == DialogStep(status, old(Flags()), ev)
      ensures downloadDone == old(downloadDone) && downloadPath == old(downloadPath)
      ensures downloadError == old(downloadError)
    {
      effect := NoEffect;
      if !visible {
        return false, NoEffect;
      }
      match ev {
        case EscapeKey =>
          if status.currentDeprecated {
            requestQuit := true;
          }
          visible := false;
          return true, NoEffect;
        case OtherEvent =>
          return true, NoEffect;
        case LeftClick(inPanel, onCheckbox, onDownload, onReleases, onSkip) =>
          if !inPanel {
            return true, NoEffect;
          }
          if !status.currentDeprecated && onCheckbox {
            snoozeChecked := !snoozeChecked;
            return true, NoEffect;
          }
          if onDownload && !downloadRequested {
            if status.latest.Some? {
              downloadRequested := true;
              effect := Download(status.latest.value.downloadUrl);
            }
            if status.currentDeprecated {
              exitWhenDownloadDone := true;
            }
            return true, effect;
          }
          if onReleases {
            if status.currentDeprecated {
              requestQuit := true;
            }
            visible := false;
            return true, OpenReleases;
          }
          if onSkip {
            if status.currentDeprecated {
              requestQuit := true;
              visible := false;
              return true, NoEffect;
            }
            if snoozeChecked && status.latest.Some? {
              effect := Snooze(status.latest.value.version);
            }
            visible := false;
            return true, effect;
          }
          return true, NoEffect;
      }
    }

    /**
     * The download button part of `draw`: its label follows the download's progress, and after
     * a failed download it offers a retry, clearing the request so that a click starts it again.
     */
    method DownloadButton() returns (button: Button)
      modifies this
      ensures !old(visible) || status.latest.None? ==> button == Hidden && unchanged(this)
      ensures old(visible) && status.latest.Some? ==>
                && button == DownloadButtonOf(old(downloadRequested), old(downloadDone), old(downloadError))
                && var retry := old(downloadRequested) && old(downloadDone) && old(downloadError).Some?;
                   && downloadRequested == (old(downloadRequested) && !retry)
                   && downloadDone == (old(downloadDone) && !retry)
                   && downloadError == (if retry then None else old(downloadError))
                   && visible == old(visible) && requestQuit == old(requestQuit)
                   && snoozeChecked == old(snoozeChecked) && exitWhenDownloadDone == old(exitWhenDownloadDone)
                   && downloadPath == old(downloadPath)
    {
      if !visible || status.latest.None? {
        return Hidden;
      }
      var caption := "Download update";
      var enabled := !downloadRequested;
      if downloadRequested && !downloadDone {
        caption := "Downloading…";
      } else if downloadRequested && downloadDone && downloadError.None? {
        caption := "Downloaded";
      } else if downloadRequested && downloadDone && downloadError.Some? {
        caption := "Retry download";
        enabled := true;
        downloadRequested := false;
        downloadDone := false;
        downloadError := None;
      }
      button := Shown(caption, enabled);
    }
  }

  /** The label and state of the download button for the download fields. */
  function DownloadButtonOf(requested: bool, done: bool, error: Option<string>): Button {
    if requested && !done then Shown("Downloading…", false)
    else if requested && done && error.None? then Shown("Downloaded", false)
    else if requested && done then Shown("Retry download", true)
    else Shown("Download update", true)
  }

  /** The button is enabled exactly when a click on it would start a download, or after a failure. */
  lemma DownloadButtonEnabled(requested: bool, done: bool, error: Option<string>)
    ensures DownloadButtonOf(requested, done, error).enabled <==> !requested || (done && error.Some?)
  {
  }

  // ---------------------------------------------------------------- manager

  function Max(a: real, b: real): real {
    if a >= b then a else b
  }

  /** `UpdateManager`: the toast, the snooze, the download hand-over and the open dialog. */
  class UpdateManager {
    const osTag: string
    const currentVersion: string
    var snoozeUntilVersion: string
    var toastText: Option<string>
    var toastError: bool
    var toastUntil: real
    var toastSticky: bool
    var downloadDone: bool
    var downloadPath: Option<string>
    var downloadError: Option<string>
    var dialog: UpdateDialog?

    /**
     * The constructor with the OS tag already chosen and `storedSnooze` the value read from the
     * state file; the first background check it schedules is outside the model.
     */
    constructor(osTag: string, currentVersion: string, storedSnooze: string)
      ensures this.osTag == Lower(osTag) && this.currentVersion == currentVersion
      ensures snoozeUntilVersion == Strip(storedSnooze)
      ensures toastText.None? && !toastError && toastUntil == 0.0 && !toastSticky
      ensures !downloadDone && downloadPath.None? && downloadError.None?
      ensures dialog == null
    {
      this.osTag := Lower(osTag);
      this.currentVersion := currentVersion;
      snoozeUntilVersion := Strip(storedSnooze);
      toastText := None;
      toastError := false;
      toastUntil := 0.0;
      toastSticky := false;
      downloadDone := false;
      downloadPath := None;
      downloadError := None;
      dialog := null;
    }

    /** `dialog_active`. */
    predicate DialogActive()
      reads this, dialog
    {
      dialog != null && dialog.visible
    }

    /** `should_quit`. */
    predicate ShouldQuit()
      reads this, dialog
    {
      dialog != null && dialog.requestQuit
    }

    /** `_show_toast`: a sticky toast has no deadline, any other lasts at least a quarter second. */
    method ShowToast(text: string, isError: bool, seconds: real, sticky: bool, now: real)
      modifies this
      ensures toastText == Some(text) && toastError == isError && toastSticky == sticky
      ensures toastUntil == if sticky then 0.0 else now + Max(0.25, seconds)
      ensures !sticky ==> toastUntil >= now + 0.25
      ensures snoozeUntilVersion == old(snoozeUntilVersion) && dialog == old(dialog)
      ensures downloadDone == old(downloadDone) && downloadPath == old(downloadPath) && downloadError == old(downloadError)
    {
      toastText := Some(text);
      toastError := isError;
      toastSticky := sticky;
      toastUntil := if sticky then 0.0 else now + Max(0.25, seconds);
    }

    /** `_clear_toast_if_expired`: a non-sticky toast goes once its deadline has passed. */
    method ClearToastIfExpired(now: real)
      modifies this
      ensures var expired := old(toastText).Some? && !old(toastSticky) && now >= old(toastUntil);
              && (expired ==> toastText.None? && !toastError && toastUntil == 0.0 && !toastSticky)
              && (!expired ==> toastText == old(toastText) && toastError == old(toastError)
                               && toastUntil == old(toastUntil) && toastSticky == old(toastSticky))
      ensures old(toastSticky) ==> toastText == old(toastText)
      ensures snoozeUntilVersion == old(snoozeUntilVersion) && dialog == old(dialog)
      ensures downloadDone == old(downloadDone) && downloadPath == old(downloadPath) && downloadError == old(downloadError)
    {
      if toastText.None? {
        return;
      }
      if toastSticky {
        return;
      }
      if now >= toastUntil {
        toastText := None;
        toastError := false;
        toastUntil := 0.0;
        toastSticky := false;
      }
    }

    /** `_set_snooze_until`: the version is stored stripped; writing the state file is outside the model. */
    method SetSnoozeUntil(version: string)
      modifies this
      ensures snoozeUntilVersion == Strip(version)
      ensures toastText == old(toastText) && toastError == old(toastError)
      ensures toastUntil == old(toastUntil) && toastSticky == old(toastSticky) && dialog == old(dialog)
      ensures downloadDone == old(downloadDone) && downloadPath == old(downloadPath) && downloadError == old(downloadError)
    {
      snoozeUntilVersion := Strip(version);
    }

    /**
     * The part of `_start_download_for_latest` that runs on the game's thread: unless a download
     * is already running, the download fields are reset before the worker starts.
     */
    method StartDownload(workerRunning: bool)
      modifies this
      ensures workerRunning ==> downloadDone == old(downloadDone) && downloadPath == old(downloadPath) && downloadError == old(downloadError)
      ensures !workerRunning ==> !downloadDone && downloadPath.None? && downloadError.None?
      ensures snoozeUntilVersion == old(snoozeUntilVersion) && dialog == old(dialog)
      ensures toastText == old(toastText) && toastError == old(toastError)
      ensures toastUntil == old(toastUntil) && toastSticky == old(toastSticky)
    {
      if workerRunning {
        return;
      }
      downloadPath := None;
      downloadError := None;
      downloadDone := false;
    }

    /**
     * `pump`, with the pending notice and status handed over by the check worker as parameters:
     * a notice only shows a toast; a status, when no dialog is open, is decided by
     * `DecideStatus`, and after a manual check that opened nothing the "Checking…" toast is
     * unstuck to expire 2.5 s later; then an open dialog receives the download state.
     */
    method Pump(now: real, notice: Option<(string, bool)>, status: Option<UpdateStatus>, interactive: bool, force: bool)
      modifies this, dialog
      ensures notice.Some? ==>
                && toastText == Some(notice.value.0) && toastError == notice.value.1
                && !toastSticky && toastUntil == now + 2.5
                && dialog == old(dialog) && (dialog != null ==> unchanged(dialog))
      ensures notice.None? && status.Some? && old(dialog) == null ==>
                var action := DecideStatus(status.value, snoozeUntilVersion, interactive, force);
                && (dialog != null <==> action == OpenDialog && status.value.latest.Some?)
                && (dialog != null ==> fresh(dialog) && dialog.status == status.value
                                       && dialog.visible == !(dialog.status.currentDeprecated && dialog.exitWhenDownloadDone && downloadDone))
                && (action.ShowToast? ==> toastText == Some(action.text) && toastError == action.isError)
                && (dialog == null && interactive ==> !toastSticky && toastUntil == now + 2.5)
      ensures notice.None? && old(dialog) != null ==>
                && dialog == old(dialog) && dialog.downloadDone == downloadDone
                && dialog.downloadPath == downloadPath && dialog.downloadError == downloadError
                && dialog.status == old(dialog.status)
                && (var quit := dialog.status.currentDeprecated && old(dialog.exitWhenDownloadDone) && downloadDone;
                    && dialog.requestQuit == (old(dialog.requestQuit) || quit)
                    && dialog.visible == (old(dialog.visible) && !quit))
                && dialog.snoozeChecked == old(dialog.snoozeChecked)
                && dialog.downloadRequested == old(dialog.downloadRequested)
                && dialog.exitWhenDownloadDone == old(dialog.exitWhenDownloadDone)
      ensures notice.None? &&
              (status.None? || (!interactive && (old(dialog) != null
                 || !DecideStatus(status.value, snoozeUntilVersion, interactive, force).ShowToast?))) ==>
                && toastText == old(toastText) && toastError == old(toastError)
                && toastUntil == old(toastUntil) && toastSticky == old(toastSticky)
      ensures snoozeUntilVersion == old(snoozeUntilVersion)
      ensures downloadDone == old(downloadDone) && downloadPath == old(downloadPath) && downloadError == old(downloadError)
    {
      if notice.Some? {
        ShowToast(notice.value.0, notice.value.1, 2.5, false, now);
        return;
      }
      if status.Some? {
        ApplyStatus(now, status.value, interactive, force);
      }
      if dialog != null {
        dialog.SetDownloadState(downloadDone, downloadPath, downloadError);
      }
    }

    /** The status part of `pump`. */
    method ApplyStatus(now: real, st: UpdateStatus, interactive: bool, force: bool)
      modifies this
      ensures old(dialog) != null ==> dialog == old(dialog)
      ensures old(dialog) == null ==>
                var action := DecideStatus(st, snoozeUntilVersion, interactive, force);
                && (dialog != null <==> action == OpenDialog && st.latest.Some?)
                && (dialog != null ==> fresh(dialog) && dialog.status == st
                                       && dialog.Flags() == DialogFlags(true, false, false, false, false))
                && (action.ShowToast? ==> toastText == Some(action.text) && toastError == action.isError)
      ensures dialog == null && interactive ==> !toastSticky && toastUntil == now + 2.5
      ensures !interactive && (old(dialog) != null || !DecideStatus(st, snoozeUntilVersion, interactive, force).ShowToast?) ==>
                && toastText == old(toastText) && toastError == old(toastError)
                && toastUntil == old(toastUntil) && toastSticky == old(toastSticky)
      ensures snoozeUntilVersion == old(snoozeUntilVersion)
      ensures downloadDone == old(downloadDone) && downloadPath == old(downloadPath) && downloadError == old(downloadError)
    {
      if dialog == null {
        var action := DecideStatus(st, snoozeUntilVersion, interactive, force);
        match action {
          case OpenDialog =>
            if st.latest.Some? {
              dialog := new UpdateDialog(st);
            }
          case ShowToast(text, isError, seconds) =>
            ShowToast(text, isError, seconds, false, now);
          case NoAction =>
        }
      }
      if interactive && dialog == null {
        toastSticky := false;
        toastUntil := now + 2.5;
      }
    }

    /**
     * `handle_event`: an active dialog gets the event and the manager carries out its callback
     * (a snooze is stored, a download is started unless one is running); otherwise a left click
     * on the "Updates" button starts a forced manual check, and nothing else is consumed.
     */
    method HandleEvent(ev: DialogEvent, onUpdatesButton: bool, downloadRunning: bool) returns (consumed: bool, effect: Effect)
      modifies this, dialog
      ensures old(dialog != null && dialog.visible) ==>
                && dialog == old(dialog)
                && (dialog.Flags(), consumed, effect) == DialogStep(dialog.status, old(dialog.Flags()), ev)
                && (effect.Snooze? ==> snoozeUntilVersion == Strip(effect.version))
                && (!effect.Snooze? ==> snoozeUntilVersion == old(snoozeUntilVersion))
                && (effect.Download? && !downloadRunning ==> !downloadDone && downloadPath.None? && downloadError.None?)
      ensures !old(dialog != null && dialog.visible) ==>
                && dialog == old(dialog) && snoozeUntilVersion == old(snoozeUntilVersion)
                && consumed == (ev.LeftClick? && onUpdatesButton)
                && effect == (if consumed then StartCheck else NoEffect)
    {
      if dialog != null && dialog.visible {
        consumed, effect := dialog.HandleEvent(ev);
        if effect.Snooze? {
          SetSnoozeUntil(effect.version);
        } else if effect.Download? {
          StartDownload(downloadRunning);
        }
        return;
      }
      if ev.LeftClick? && onUpdatesButton {
        return true, StartCheck;
      }
      return false, NoEffect;
    }
  }
}
