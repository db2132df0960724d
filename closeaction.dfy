/**
  What electron/main.js does when the main window is asked to close:
  quit outright while an update is being installed, follow a remembered
  choice, or ask whether to minimise to the tray or exit, remembering the
  answer when the checkbox is ticked. The window, the app and the
  preference file are outside the model; the decision says what is done
  to each of them.
*/
module CloseAction {
  import opened Wrappers

  /** The values of `QUIT_TYPE`. */
  datatype QuitType = Minimize | Quit | Maintain

  /** The key of each value in `QUIT_TYPE`: the dialog's button index (2 is its `cancelId`). */
  function QuitIndex(t: QuitType): nat {
    match t
    case Minimize => 0
    case Quit => 1
    case Maintain => 2
  }

  /** The string each value is, as `saveUserPreference` stores it. */
  function QuitName(t: QuitType): string {
    match t
    case Minimize => "minimize"
    case Quit => "quit"
    case Maintain => "maintain"
  }

  /** `QUIT_TYPE[i]`: `undefined` for any key outside the table. */
  function QuitTypeAt(i: int): (t: Option<QuitType>)
    ensures t.Some? <==> 0 <= i <= 2
  {
    if i == 0 then Some(Minimize)
    else if i == 1 then Some(Quit)
    else if i == 2 then Some(Maintain)
    else None
  }

  /** The table is a bijection between the keys 0, 1, 2 and the three values. */
  lemma QuitTableInverse(t: QuitType, i: int)
    ensures QuitTypeAt(QuitIndex(t)) == Some(t)
    ensures QuitTypeAt(i).Some? ==> QuitIndex(QuitTypeAt(i).value) == i
  {
  }

  /** The three values are stored under three different strings. */
  lemma QuitNamesDistinct(s: QuitType, t: QuitType)
    ensures QuitName(s) == QuitName(t) <==> s == t
  {
  }

  /**
    What `dialog.showMessageBox` resolves to: an object with the button
    index and the checkbox (macOS), or a bare button index (the other
    platforms, as the handler's comment has it).
  */
  datatype DialogResult = Reply(response: int, checkboxChecked: bool) | Index(index: int)

  /**
    `parseDialogResult`: the chosen action and whether to remember it. For a
    bare index the checkbox is read from `dialog.checkboxChecked`, which is
    `undefined` (`None`) unless something set it; `|| false` turns every
    falsy value into `false`.
  */
  function ParseDialogResult(result: DialogResult, dialogChecked: Option<bool>): (r: (Option<QuitType>, bool))
    ensures r.0.Some? <==> 0 <= (if result.Reply? then result.response else result.index) <= 2
    ensures r.0.Some? ==> QuitIndex(r.0.value) == if result.Reply? then result.response else result.index
    ensures result.Reply? ==> (r.1 <==> result.checkboxChecked)
    ensures result.Index? ==> (r.1 <==> dialogChecked == Some(true))
  {
    match result
    case Reply(response, checked) => (QuitTypeAt(response), checked)
    case Index(i) => (QuitTypeAt(i), dialogChecked.Some? && dialogChecked.value)
  }

  /** What happens to the window and the app. */
  datatype WindowEffect =
    | LetClose        // the close goes ahead untouched
    | AppQuit         // `app.quit()`
    | MinimizeWindow  // `mainWindow.minimize()`
    | StayOpen        // the close was prevented and nothing else is done

  /**
    The outcome of one close request: whether `event.preventDefault()` ran,
    what is done to the window, the preference string saved (if any), and
    whether the dialog was shown.
  */
  datatype Decision = Decision(prevented: bool, effect: WindowEffect, saved: Option<string>, asked: bool)

  /** The effect of an action chosen in the dialog, or none when it maps to no action. */
  function EffectOf(action: Option<QuitType>): WindowEffect {
    match action
    case Some(Minimize) => MinimizeWindow
    case Some(Quit) => AppQuit
    case _ => StayOpen
  }

  /**
    The `close` handler. `isQuitting` is set once the app is quitting,
    `autoUpdate` is `getAutoUpdate()`, `preference` is what
    `loadUserPreference()` returned, and `answer`/`dialogChecked` describe
    the dialog, consulted only when it is shown.
  */
  function OnClose(isQuitting: bool, autoUpdate: bool, preference: Option<string>,
                   answer: DialogResult, dialogChecked: Option<bool>): (d: Decision)
    ensures isQuitting ==> d == Decision(false, LetClose, None, false)
    ensures !isQuitting && autoUpdate ==> d == Decision(false, AppQuit, None, false)
    ensures !isQuitting && !autoUpdate ==> d.prevented
    ensures !isQuitting && !autoUpdate && preference == Some(QuitName(Minimize)) ==>
      d == Decision(true, MinimizeWindow, None, false)
    ensures !isQuitting && !autoUpdate && preference == Some(QuitName(Quit)) ==>
      d == Decision(true, AppQuit, None, false)
    ensures d.asked <==>
      !isQuitting && !autoUpdate && preference != Some(QuitName(Minimize)) && preference != Some(QuitName(Quit))
    ensures d.asked ==> d.effect == EffectOf(ParseDialogResult(answer, dialogChecked).0)
    ensures d.saved.Some? <==>
      d.asked && ParseDialogResult(answer, dialogChecked).1 && d.effect != StayOpen
    ensures d.saved.Some? ==> (d.effect == MinimizeWindow && d.saved.value == QuitName(Minimize)) ||
                              (d.effect == AppQuit && d.saved.value == QuitName(Quit))
  {
    if isQuitting then Decision(false, LetClose, None, false)
    else if autoUpdate then Decision(false, AppQuit, None, false)
    else if preference == Some(QuitName(Minimize)) then Decision(true, MinimizeWindow, None, false)
    else if preference == Some(QuitName(Quit)) then Decision(true, AppQuit, None, false)
    else
      var (action, remember) := ParseDialogResult(answer, dialogChecked);
      match action
      case Some(Minimize) => Decision(true, MinimizeWindow, if remember then Some(QuitName(Minimize)) else None, true)
      case Some(Quit) => Decision(true, AppQuit, if remember then Some(QuitName(Quit)) else None, true)
      case _ => Decision(true, StayOpen, None, true)
  }

  /**
    A remembered choice sticks: once a close saved a preference, every later
    close (while not quitting and without a pending update) does the same
    thing again without asking, whatever the dialog would have answered.
  */
  lemma RememberedChoiceSticks(isQuitting: bool, autoUpdate: bool, preference: Option<string>,
                               answer: DialogResult, dialogChecked: Option<bool>,
                               later: DialogResult, laterChecked: Option<bool>)
    requires OnClose(isQuitting, autoUpdate, preference, answer, dialogChecked).saved.Some?
    ensures var first := OnClose(isQuitting, autoUpdate, preference, answer, dialogChecked);
      var next := OnClose(false, false, first.saved, later, laterChecked);
      next.effect == first.effect && !next.asked && next.saved == None
  {
  }

  /**
    Dismissing the dialog (the cancel index 2, `maintain`) or an index
    outside the table keeps the window open and saves nothing, even with
    the checkbox ticked.
  */
  lemma DismissKeepsWindow(preference: Option<string>, answer: DialogResult, dialogChecked: Option<bool>)
    requires preference != Some(QuitName(Minimize)) && preference != Some(QuitName(Quit))
    requires ParseDialogResult(answer, dialogChecked).0 !in {Some(Minimize), Some(Quit)}
    ensures OnClose(false, false, preference, answer, dialogChecked) == Decision(true, StayOpen, None, true)
  {
  }

  /** A preference other than `minimize` or `quit` (none saved, or anything else) is ignored: the dialog is shown. */
  lemma OtherPreferenceAsks(preference: Option<string>, answer: DialogResult, dialogChecked: Option<bool>)
    requires preference.Some? ==> preference.value != QuitName(Minimize) && preference.value != QuitName(Quit)
    ensures OnClose(false, false, preference, answer, dialogChecked).asked
  {
  }
}
