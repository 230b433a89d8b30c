/**
 * One conversation as the dispatcher sees it: the workflow state, the data
 * stored with it, the incoming updates, and which handler an update reaches.
 * aiogram offers an update to the handlers in the order they are registered
 * and runs the first whose filters all pass; the order below is the order of
 * the decorators in `main_movie_bot.py`.
 */
module Routing {
  import opened Maybe
  import opened Strings
  import opened Caption

  /** `ADMIN_USER_IDS`. */
  const AdminIds: set<int> := {7602415296, 1648071876, 1529476219}

  predicate IsAdmin(user: int) {
    user in AdminIds
  }

  /** No state, one of the three `AddMovieStates`, or the one `DeleteMovieStates` state. */
  datatype FsmState =
    | Idle
    | WaitingForMovieFile
    | WaitingForMovieCode
    | WaitingForMovieName
    | WaitingForDeleteCode

  /** The keys `update_data` stores; a key never stored is `None`. */
  datatype SessionData = SessionData(
    suggestedCodeFromSequence: Option<string>,
    fileId: Option<string>,
    suggestedName: Option<string>,
    finalMovieCode: Option<string>)

  /** What `state.clear()` leaves. */
  const EmptyData: SessionData := SessionData(None, None, None, None)

  /**
   * What a message carries: text, a video or document (the file id the bot
   * takes from it and its caption), or anything else with its caption.
   */
  datatype Content =
    | Text(text: string)
    | Media(fileId: string, caption: Option<string>)
    | OtherContent(caption: Option<string>)

  /**
   * An update: a message or a button press. `subscribed` is what the channel
   * membership check would answer for the sender.
   */
  datatype Update =
    | Message(sender: int, content: Content, subscribed: bool)
    | Callback(sender: int, data: string, subscribed: bool)

  /** The text a command filter reads: `message.text or message.caption`. */
  function CommandText(c: Content): string {
    match c
    case Text(t) => t
    case Media(_, cap) => if cap.Some? then cap.value else ""
    case OtherContent(cap) => if cap.Some? then cap.value else ""
  }

  /** Aiogram's reading of a command: the first word of the text, when it is `/` followed by a name without `@`. */
  function CommandName(t: string): Option<string> {
    var word := NonSpaceRun(LStrip(t));
    if |word| > 0 && word[0] == '/' && '@' !in word then Some(word[1..]) else None
  }

  /** A command is the text's first word: `/`, its name, then whitespace or the end. */
  lemma CommandNameShape(t: string)
    ensures var r := CommandName(t);
      r.Some? ==> IsCommandText(t, r.value) && '@' !in r.value
  {
    var word := NonSpaceRun(LStrip(t));
    NonSpaceRunShape(LStrip(t));
    if CommandName(t).Some? {
      assert word == "/" + word[1..];
    }
  }

  /** The text, without its leading whitespace, begins with `/name` followed by whitespace or nothing. */
  predicate IsCommandText(t: string, name: string) {
    var r := LStrip(t);
    |r| > |name| && r[..|name| + 1] == "/" + name && (|r| == |name| + 1 || IsSpace(r[|name| + 1]))
  }

  /** No character of the name is whitespace or `@`. */
  predicate PlainName(name: string) {
    |name| == 0 || (!IsSpace(name[0]) && name[0] != '@' && PlainName(name[1..]))
  }

  lemma {:induction false} PlainNameChars(name: string)
    requires PlainName(name)
    ensures forall i :: 0 <= i < |name| ==> !IsSpace(name[i]) && name[i] != '@'
    decreases |name|
  {
    if |name| > 0 {
      PlainNameChars(name[1..]);
      assert forall i :: 1 <= i < |name| ==> name[i] == name[1..][i - 1];
    }
  }

  /** A text of the form `/name ...` for a plain name is read as the command `name`. */
  lemma CommandOf(t: string, name: string)
    requires PlainName(name) && IsCommandText(t, name)
    ensures CommandName(t) == Some(name)
  {
    PlainNameChars(name);
    IsCommandTextAgrees(t, name);
  }

  /** For a command name without whitespace or `@`, the test `Command(name)` performs is exactly "the first word is `/name`". */
  lemma IsCommandTextAgrees(t: string, name: string)
    requires forall i :: 0 <= i < |name| ==> !IsSpace(name[i]) && name[i] != '@'
    ensures IsCommandText(t, name) <==> CommandName(t) == Some(name)
  {
    var r := LStrip(t);
    var word := NonSpaceRun(r);
    NonSpaceRunShape(r);
    var w := "/" + name;
    if IsCommandText(t, name) {
      var k := |w|;
      assert r[..k] == w;
      var m := |word|;
      assert word == w;
      assert w[1..] == name;
    }
    if CommandName(t) == Some(name) {
      assert word == w;
    }
  }

  /** The commands the handlers are registered for, and the rest. */
  datatype Command =
    | MyIdCmd
    | AdminHelpCmd
    | AddMovieCmd
    | DeleteMovieCmd
    | ListAllMoviesCmd
    | CancelCmd
    | StartCmd
    | UserHelpCmd
    | OtherCmd
    | NotACommand

  /** The name each registered command is matched by. */
  function CommandWord(k: Command): string {
    match k
    case MyIdCmd => "myid"
    case AdminHelpCmd => "adminhelp"
    case AddMovieCmd => "addmovie"
    case DeleteMovieCmd => "deletemovie"
    case ListAllMoviesCmd => "listallmovies"
    case CancelCmd => "cancel"
    case StartCmd => "start"
    case UserHelpCmd => "userhelp"
    case OtherCmd => ""
    case NotACommand => ""
  }

  /** Which `Command(...)` filter a message passes, if any. */
  function CommandOfContent(c: Content): (k: Command)
    ensures k != OtherCmd && k != NotACommand ==> CommandName(CommandText(c)) == Some(CommandWord(k))
    ensures k == NotACommand <==> CommandName(CommandText(c)).None?
    ensures forall k' :: k' != OtherCmd && k' != NotACommand && CommandName(CommandText(c)) == Some(CommandWord(k')) ==> k == k'
  {
    match CommandName(CommandText(c))
    case None => NotACommand
    case Some(n) =>
      if n == "myid" then MyIdCmd
      else if n == "adminhelp" then AdminHelpCmd
      else if n == "addmovie" then AddMovieCmd
      else if n == "deletemovie" then DeleteMovieCmd
      else if n == "listallmovies" then ListAllMoviesCmd
      else if n == "cancel" then CancelCmd
      else if n == "start" then StartCmd
      else if n == "userhelp" then UserHelpCmd
      else OtherCmd
  }

  /** The `F.text` filter: a message with non-empty text. */
  predicate HasText(c: Content) {
    c.Text? && c.text != ""
  }

  /** The labels the handlers for the two keyboard buttons compare the text with. */
  const ListButtonLabel: string := "🎬 Filmlar Ro'yxati"
  const HelpButtonFilter: string := "❓ Yordam"
  /** The label the keyboard actually shows on its help button. */
  const HelpButtonShown: string := "Yordam ❓"

  const SelectMoviePrefix: string := "select_movie:"
  const CheckSubscriptionData: string := "check_my_subscription"

  /** The handlers, named by the filters that select them. */
  datatype Handler =
    | MyIdCommand
    | AdminHelpCommand
    | AddMovieCommand
    | DeleteMovieCommand
    | DeleteCodeText
    | ListCommand
    | CancelCommand
    | MovieFileMedia
    | OtherInFileState
    | CodeText
    | NameText
    | OtherInNameState
    | StartCommand
    | UserHelpCommand
    | ListButton
    | HelpButton
    | FreeText
    | CatchAll
    | SubscriptionCheckButton
    | ConfirmCodeButton
    | ConfirmNameButton
    | SelectMovieButton
    | NoCallbackHandler

  /** Which keyboard-button handler's text filter a message passes, if any. */
  datatype Label = ListLabel | HelpLabel | NoLabel

  function LabelOf(c: Content): Label {
    if c == Text(ListButtonLabel) then ListLabel
    else if c == Text(HelpButtonFilter) then HelpLabel
    else NoLabel
  }

  /**
   * The first message handler, in registration order, whose filters accept
   * a message in state `s`, given the command and the button label the
   * message's text is read as.
   */
  function RouteMessage(s: FsmState, cmd: Command, button: Label, c: Content): Handler {
    if cmd == MyIdCmd then MyIdCommand
    else if cmd == AdminHelpCmd then AdminHelpCommand
    else if cmd == AddMovieCmd then AddMovieCommand
    else if cmd == DeleteMovieCmd then DeleteMovieCommand
    else if s == WaitingForDeleteCode && HasText(c) then DeleteCodeText
    else if cmd == ListAllMoviesCmd then ListCommand
    else if cmd == CancelCmd && s != Idle then CancelCommand
    else if s == WaitingForMovieFile && c.Media? then MovieFileMedia
    else if s == WaitingForMovieFile then OtherInFileState
    else if s == WaitingForMovieCode && HasText(c) then CodeText
    else if s == WaitingForMovieName && HasText(c) then NameText
    else if s == WaitingForMovieName then OtherInNameState
    else if cmd == StartCmd then StartCommand
    else if cmd == UserHelpCmd then UserHelpCommand
    else if button == ListLabel then ListButton
    else if button == HelpLabel then HelpButton
    else if HasText(c) then FreeText
    else CatchAll
  }

  /** The first callback handler, in registration order, whose filters accept button data `d` in state `s`. */
  function RouteCallback(s: FsmState, d: string): Handler {
    if d == CheckSubscriptionData then SubscriptionCheckButton
    else if StartsWith(d, ConfirmCodePrefix) && s == WaitingForMovieCode then ConfirmCodeButton
    else if StartsWith(d, ConfirmNamePrefix) && s == WaitingForMovieName then ConfirmNameButton
    else if StartsWith(d, SelectMoviePrefix) then SelectMovieButton
    else NoCallbackHandler
  }

  /** The handler an update reaches in state `s`. */
  function Route(s: FsmState, u: Update): Handler {
    match u
    case Message(_, c, _) => RouteMessage(s, CommandOfContent(c), LabelOf(c), c)
    case Callback(_, d, _) => RouteCallback(s, d)
  }

  /** A text that does not start with `/` names no command. */
  lemma NoSlashNoCommand(t: string)
    requires LStrip(t) == "" || LStrip(t)[0] != '/'
    ensures CommandName(t) == None
  {
    NonSpaceRunShape(LStrip(t));
  }

  /** Neither button label starts with `/`, after any leading whitespace. */
  lemma LabelsAreNotCommands(t: string)
    requires LStrip(t) != "" && LStrip(t)[0] == '/'
    ensures t != ListButtonLabel && t != HelpButtonFilter
  {
    var list := ListButtonLabel;
    assert list[0] != '/' && !IsSpace(list[0]);
    LStripKeeps(list);
    var help := HelpButtonFilter;
    assert help[0] != '/' && !IsSpace(help[0]);
    LStripKeeps(help);
  }

  /** `/cancel`, read as a command, is the cancel command and no button label. */
  lemma CancelClassified(t: string)
    requires CommandName(t) == Some("cancel")
    ensures CommandOfContent(Text(t)) == CancelCmd
  {
  }

  /** A text read as a command is no button label. */
  lemma CommandIsNoLabel(t: string)
    requires CommandName(t).Some?
    ensures LabelOf(Text(t)) == NoLabel
  {
    CommandNameShape(t);
    var r := LStrip(t);
    assert r[..|CommandName(t).value| + 1][0] == '/';
    LabelsAreNotCommands(t);
  }

  /**
   * Where a `/cancel` ends up. The delete-code handler is registered before
   * the cancel handler, so in the delete state `/cancel` is taken as the code
   * to delete; in the three states of adding a movie it reaches the cancel
   * handler; outside a workflow the cancel handler's state filter fails and
   * it falls through to the free-text handler, which answers that it did not
   * understand.
   */
  lemma CancelByState(s: FsmState, t: string, sender: int, subscribed: bool)
    requires CommandName(t) == Some("cancel")
    ensures Route(s, Message(sender, Text(t), subscribed)) ==
      if s == WaitingForDeleteCode then DeleteCodeText
      else if s == Idle then FreeText
      else CancelCommand
  {
    CancelClassified(t);
    CommandIsNoLabel(t);
    assert t != "";
    CancelRoute(s, Text(t));
  }

  lemma CancelRoute(s: FsmState, c: Content)
    requires HasText(c)
    ensures RouteMessage(s, CancelCmd, NoLabel, c) ==
      if s == WaitingForDeleteCode then DeleteCodeText
      else if s == Idle then FreeText
      else CancelCommand
  {
  }

  /** In the delete state every text except the four commands registered before it is taken as a code. */
  lemma DeleteStateTakesText(cmd: Command, button: Label, c: Content)
    requires HasText(c)
    requires cmd !in {MyIdCmd, AdminHelpCmd, AddMovieCmd, DeleteMovieCmd}
    ensures RouteMessage(WaitingForDeleteCode, cmd, button, c) == DeleteCodeText
  {
  }

  /** In the file and name states every message is taken by a handler of that state, unless it is one of the early commands or a cancel. */
  lemma AddingStatesTakeEverything(s: FsmState, cmd: Command, button: Label, c: Content)
    requires s == WaitingForMovieFile || s == WaitingForMovieName
    ensures RouteMessage(s, cmd, button, c) in
      {MyIdCommand, AdminHelpCommand, AddMovieCommand, DeleteMovieCommand, ListCommand, CancelCommand,
       MovieFileMedia, OtherInFileState, NameText, OtherInNameState}
  {
  }

  /**
   * Free text reaches `handle_code_or_name` only when no workflow is open:
   * every workflow state has a text handler registered before it, so the
   * handler's own check of the state never fires. It is a non-empty text
   * that no command or button handler took.
   */
  lemma FreeTextOnlyWhenIdle(s: FsmState, cmd: Command, button: Label, c: Content)
    requires RouteMessage(s, cmd, button, c) == FreeText
    ensures s == Idle && HasText(c)
    ensures cmd in {CancelCmd, OtherCmd, NotACommand} && button == NoLabel
  {
  }

  /** No button press is ever handled as free text. */
  lemma CallbacksNeverFreeText(s: FsmState, d: string)
    ensures RouteCallback(s, d) != FreeText
  {
  }

  /**
   * The keyboard's help button sends "Yordam ❓", but its handler waits for
   * "❓ Yordam": the press is searched for as a movie code or name.
   */
  lemma HelpButtonMissesItsHandler(sender: int, subscribed: bool)
    ensures Route(Idle, Message(sender, Text(HelpButtonShown), subscribed)) == FreeText
  {
    HelpShownIsPlain();
    PlainTextWhenIdle(HelpButtonShown, sender, subscribed);
  }

  /** The help button's text is no command and neither label. */
  lemma HelpShownIsPlain()
    ensures CommandName(HelpButtonShown).None?
    ensures HelpButtonShown != "" && HelpButtonShown != ListButtonLabel && HelpButtonShown != HelpButtonFilter
  {
    var shown := HelpButtonShown;
    assert shown[0] != '/' && !IsSpace(shown[0]);
    LStripKeeps(shown);
    NoSlashNoCommand(shown);
    assert shown[0] != HelpButtonFilter[0] && shown[0] != ListButtonLabel[0];
  }

  /** Idle, a text that is no command and neither label goes to the free-text handler. */
  lemma PlainTextWhenIdle(t: string, sender: int, subscribed: bool)
    requires CommandName(t).None? && t != "" && t != ListButtonLabel && t != HelpButtonFilter
    ensures Route(Idle, Message(sender, Text(t), subscribed)) == FreeText
  {
    assert CommandOfContent(Text(t)) == NotACommand;
    assert LabelOf(Text(t)) == NoLabel;
  }

  /** `/addmovie` is registered ahead of every state filter, so it restarts the workflow from any state. */
  lemma AddMovieFromAnyState(s: FsmState, t: string, sender: int, subscribed: bool)
    requires CommandName(t) == Some("addmovie")
    ensures Route(s, Message(sender, Text(t), subscribed)) == AddMovieCommand
  {
    AddMovieClassified(t);
  }

  lemma AddMovieClassified(t: string)
    requires CommandName(t) == Some("addmovie")
    ensures CommandOfContent(Text(t)) == AddMovieCmd
  {
  }

  /** So is `/deletemovie`. */
  lemma DeleteMovieFromAnyState(s: FsmState, t: string, sender: int, subscribed: bool)
    requires CommandName(t) == Some("deletemovie")
    ensures Route(s, Message(sender, Text(t), subscribed)) == DeleteMovieCommand
  {
    DeleteMovieClassified(t);
  }

  lemma DeleteMovieClassified(t: string)
    requires CommandName(t) == Some("deletemovie")
    ensures CommandOfContent(Text(t)) == DeleteMovieCmd
  {
  }

  /**
   * Inside a workflow, a non-empty text that is no command goes to the text
   * handler of that state.
   */
  lemma WorkflowTextRoutes(t: string, sender: int, subscribed: bool)
    requires CommandName(t).None? && t != ""
    ensures Route(WaitingForDeleteCode, Message(sender, Text(t), subscribed)) == DeleteCodeText
    ensures Route(WaitingForMovieCode, Message(sender, Text(t), subscribed)) == CodeText
    ensures Route(WaitingForMovieName, Message(sender, Text(t), subscribed)) == NameText
  {
    assert CommandOfContent(Text(t)) == NotACommand;
  }

  /** In the file state, a video or document whose caption is no command goes to the file handler. */
  lemma MediaInFileState(fileId: string, caption: Option<string>, sender: int, subscribed: bool)
    requires CommandName(CommandText(Media(fileId, caption))).None?
    ensures Route(WaitingForMovieFile, Message(sender, Media(fileId, caption), subscribed)) == MovieFileMedia
  {
    assert CommandOfContent(Media(fileId, caption)) == NotACommand;
  }

  /** What each message handler can rely on: the state it runs in and the kind of message it gets. */
  lemma MessageHandlerStates(s: FsmState, cmd: Command, button: Label, c: Content)
    ensures var h := RouteMessage(s, cmd, button, c);
      && (h == DeleteCodeText ==> s == WaitingForDeleteCode && HasText(c))
      && (h == CancelCommand ==> s != Idle && cmd == CancelCmd)
      && (h == MovieFileMedia ==> s == WaitingForMovieFile && c.Media?)
      && (h == OtherInFileState ==> s == WaitingForMovieFile && !c.Media?)
      && (h == CodeText ==> s == WaitingForMovieCode && HasText(c))
      && (h == NameText ==> s == WaitingForMovieName && HasText(c))
      && (h == OtherInNameState ==> s == WaitingForMovieName && !HasText(c))
      && (h == FreeText ==> s == Idle && HasText(c))
      && h !in {SubscriptionCheckButton, ConfirmCodeButton, ConfirmNameButton, SelectMovieButton, NoCallbackHandler}
  {
  }

  /** What each button handler can rely on: a confirmation button is only acted on in the state that offered it. */
  lemma CallbackHandlerStates(s: FsmState, d: string)
    ensures var h := RouteCallback(s, d);
      && (h == ConfirmCodeButton ==> s == WaitingForMovieCode && StartsWith(d, ConfirmCodePrefix))
      && (h == ConfirmNameButton ==> s == WaitingForMovieName && StartsWith(d, ConfirmNamePrefix))
      && (h == SelectMovieButton ==> StartsWith(d, SelectMoviePrefix))
      && (h == SubscriptionCheckButton ==> d == CheckSubscriptionData)
      && h in {SubscriptionCheckButton, ConfirmCodeButton, ConfirmNameButton, SelectMovieButton, NoCallbackHandler}
  {
  }
}
