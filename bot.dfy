/**
 * One conversation with the bot: the catalog it shares with every other
 * conversation, and the workflow state and session data aiogram keeps for
 * this chat. Each handler of `main_movie_bot.py` is a method over these
 * three fields; `Dispatch` routes an update to its handler the way aiogram
 * does.
 */
module MovieBot {
  import opened Maybe
  import opened Strings
  import opened Sorting
  import opened MovieStore
  import opened CodeAllocator
  import opened Caption
  import opened Lookup
  import opened Routing

  /**
   * How the `try` block around `save_movie_data` ends: the write and the
   * confirmation both succeed, the write raises, or the write succeeds and
   * sending the confirmation raises.
   */
  datatype SaveOutcome = Stored | StoreFailed | StoredButReplyFailed

  /** What the bot answers, without the wording and the keyboards. */
  datatype Reply =
    | PermissionDenied
    | ActionDenied
    | SubscribePrompt
    | YourId(id: int)
    | AdminHelpText
    | Welcome(forAdmin: bool)
    | UserHelpText
    | AskForFile(suggestedCode: nat)
    | AskForDeleteCode
    | Deleted(code: string, name: string)
    | DeleteNotFound(code: string)
    | Cancelled
    | NothingActive
    | AskForCode(suggestions: seq<string>, captionName: string)
    | NoFileReceived
    | FileExpected
    | MissingFile
    | CodeTaken(code: string, existingName: string)
    | AskForName(code: string, nameButton: Option<string>)
    | MissingFileOrCode
    | Saved(code: string, name: string, fileId: string)
    | SaveFailed
    | TextNameExpected
    | NotUnderstood
    | SendMovie(fileId: string, title: string, code: string)
    | SendFailed
    | ChooseMovie(matches: seq<Match>)
    | NoMovieFound(text: string)
    | Listing(chunks: seq<string>)
    | EmptyCatalog
    | SelectedNotFound
    | SubscriptionStatus(subscribed: bool)
    | Unrecognized
    | NoReply

  /**
   * Sending a stored movie: `movie_data['file_id']` raises when the record
   * has no file id, and the handler then apologises; the title falls back to
   * `Kod <code>`.
   */
  function Deliver(code: string, m: Movie): (r: Reply)
    ensures m.fileId.Some? <==> r.SendMovie?
    ensures r.SendMovie? ==> r.fileId == m.fileId.value && r.code == code
    ensures r.SendMovie? && m.name.Some? ==> r.title == m.name.value
    ensures r.SendMovie? && m.name.None? ==> r.title == "Kod " + code
    ensures !r.SendMovie? ==> r == SendFailed
  {
    if m.fileId.Some? then SendMovie(m.fileId.value, NameOr(m, "Kod " + code), code) else SendFailed
  }

  /** The `subscription_required` decorator: admins pass, everybody else must be subscribed. */
  predicate MayUse(sender: int, subscribed: bool) {
    IsAdmin(sender) || subscribed
  }

  /**
   * The name button offered once a code is accepted, when the caption gave a
   * name: its payload is the name behind `confirm_name:`, and a name without
   * `:` comes back whole when the button is pressed.
   */
  function NameButton(suggestedName: Option<string>): (r: Option<string>)
    ensures r.Some? <==> Truthy(suggestedName)
    ensures r.Some? ==> r.value == ButtonData(ConfirmNamePrefix, suggestedName.value)
    ensures r.Some? && ':' !in suggestedName.value ==> ButtonValue(r.value) == suggestedName.value
  {
    if Truthy(suggestedName) then
      var payload := ButtonData(ConfirmNamePrefix, suggestedName.value);
      assert ConfirmNamePrefix[..|ConfirmNamePrefix| - 1] == "confirm_name";
      assert payload[|ConfirmNamePrefix|..] == suggestedName.value;
      ButtonFields(ConfirmNamePrefix, payload);
      Some(payload)
    else
      None
  }

  /**
   * A name read from the caption replaces the stored suggestion; an empty one
   * leaves it, so a suggestion once made is never lost by a later file.
   */
  function KeepName(found: string, previous: Option<string>): (r: Option<string>)
    ensures found != "" ==> r == Some(found)
    ensures Truthy(r) <==> found != "" || Truthy(previous)
  {
    if found != "" then Some(found) else previous
  }

  /**
   * What `process_movie_file` answers for an accepted file: the code buttons
   * built from the allocator's suggestion in `before` and the caption's
   * code, and the caption's name; the name is returned for the session.
   */
  method FileReply(before: SessionData, caption: Option<string>) returns (reply: Reply, name: string)
    ensures name == OrEmpty(LastFound(CaptionLines(caption), NamePattern))
    ensures reply == AskForCode(
      CodeSuggestions(before.suggestedCodeFromSequence, OrEmpty(LastFound(CaptionLines(caption), CodePattern))), name)
  {
    var code;
    code, name := ParseCaption(caption);
    reply := AskForCode(CodeSuggestions(before.suggestedCodeFromSequence, code), name);
  }

  class Bot {
    /** The `movies` collection. */
    var catalog: Movies
    /** The conversation's workflow state. */
    var state: FsmState
    /** What `update_data` has stored for the conversation. */
    var data: SessionData

    /**
     * What the handlers keep true: once a file has been accepted the session
     * holds its id, and once a code has been accepted it holds the code.
     */
    ghost predicate Valid()
      reads this
    {
      && (state == WaitingForMovieCode || state == WaitingForMovieName ==> Truthy(data.fileId))
      && (state == WaitingForMovieName ==> data.finalMovieCode.Some?)
    }

    constructor (movies: Movies)
      ensures catalog == movies && state == Idle && data == EmptyData
      ensures Valid()
    {
      catalog := movies;
      state := Idle;
      data := EmptyData;
    }

    /** `state.clear()`. */
    method Clear()
      modifies this
      ensures catalog == old(catalog) && state == Idle && data == EmptyData
    {
      state := Idle;
      data := EmptyData;
    }

    /** `/addmovie`: an admin is asked for the file and offered the next free code, which the session keeps. */
    method AddMovieStart(sender: int) returns (reply: Reply)
      modifies this
      ensures catalog == old(catalog)
      ensures !IsAdmin(sender) ==> reply == PermissionDenied && state == old(state) && data == old(data)
      ensures IsAdmin(sender) ==>
        && reply.AskForFile?
        && IsNextCode(catalog.Keys, reply.suggestedCode)
        && state == WaitingForMovieFile
        && data == old(data).(suggestedCodeFromSequence := Some(NatToString(reply.suggestedCode)))
    {
      if !IsAdmin(sender) {
        return PermissionDenied;
      }
      var next := NextAvailableCode(catalog);
      reply := AskForFile(next);
      data := data.(suggestedCodeFromSequence := Some(NatToString(next)));
      state := WaitingForMovieFile;
    }

    /** `/deletemovie`: an admin is asked for the code; the session data is kept. */
    method DeleteMovieStart(sender: int) returns (reply: Reply)
      modifies this
      ensures catalog == old(catalog) && data == old(data)
      ensures !IsAdmin(sender) ==> reply == PermissionDenied && state == old(state)
      ensures IsAdmin(sender) ==> reply == AskForDeleteCode && state == WaitingForDeleteCode
    {
      if !IsAdmin(sender) {
        return PermissionDenied;
      }
      reply := AskForDeleteCode;
      state := WaitingForDeleteCode;
    }

    /**
     * The text sent in the delete state, trimmed and lower-cased, is the
     * code: its record is removed when there is one. Either way the
     * workflow ends.
     */
    method ProcessDeleteMovieCode(sender: int, text: string) returns (reply: Reply)
      modifies this
      ensures state == Idle && data == EmptyData
      ensures !IsAdmin(sender) ==> reply == PermissionDenied && catalog == old(catalog)
      ensures IsAdmin(sender) && Normalize(text) in old(catalog) ==>
        && reply == Deleted(Normalize(text), NameOr(old(catalog)[Normalize(text)], "Nomsiz Film"))
        && catalog == old(catalog) - {Normalize(text)}
      ensures IsAdmin(sender) && Normalize(text) !in old(catalog) ==>
        reply == DeleteNotFound(Normalize(text)) && catalog == old(catalog)
    {
      if !IsAdmin(sender) {
        reply := PermissionDenied;
        Clear();
        return;
      }
      var code := Normalize(text);
      if code in catalog {
        reply := Deleted(code, NameOr(catalog[code], "Nomsiz Film"));
        catalog := catalog - {code};
      } else {
        reply := DeleteNotFound(code);
      }
      Clear();
    }

    /** `/cancel` inside a workflow: an admin's workflow ends; anybody else is refused and keeps the state. */
    method CancelHandler(sender: int) returns (reply: Reply)
      modifies this
      ensures catalog == old(catalog)
      ensures !IsAdmin(sender) ==> reply == PermissionDenied && state == old(state) && data == old(data)
      ensures IsAdmin(sender) && old(state) == Idle ==> reply == NothingActive && state == old(state) && data == old(data)
      ensures IsAdmin(sender) && old(state) != Idle ==> reply == Cancelled && state == Idle && data == EmptyData
    {
      if !IsAdmin(sender) {
        return PermissionDenied;
      }
      if state == Idle {
        return NothingActive;
      }
      Clear();
      reply := Cancelled;
    }

    /**
     * A video or document in the file state: its id is stored, the caption
     * is scanned for a code and a name, the allocator's code and the
     * caption's code are offered as buttons, a caption name is kept for the
     * next step, and the conversation moves on to the code.
     */
    method ProcessMovieFile(sender: int, fileId: string, caption: Option<string>) returns (reply: Reply)
      modifies this
      ensures catalog == old(catalog)
      ensures !IsAdmin(sender) ==> reply == PermissionDenied && state == Idle && data == EmptyData
      ensures IsAdmin(sender) && fileId == "" ==> reply == NoFileReceived && state == old(state) && data == old(data)
      ensures IsAdmin(sender) && fileId != "" ==>
        var code := OrEmpty(LastFound(CaptionLines(caption), CodePattern));
        var name := OrEmpty(LastFound(CaptionLines(caption), NamePattern));
        && reply == AskForCode(CodeSuggestions(old(data).suggestedCodeFromSequence, code), name)
        && state == WaitingForMovieCode
        && data == old(data).(fileId := Some(fileId), suggestedName := KeepName(name, old(data).suggestedName))
    {
      if !IsAdmin(sender) {
        reply := PermissionDenied;
        Clear();
        return;
      }
      if fileId == "" {
        return NoFileReceived;
      }
      var name: string;
      reply, name := FileReply(data, caption);
      data := data.(fileId := Some(fileId), suggestedName := KeepName(name, data.suggestedName));
      state := WaitingForMovieCode;
    }

    /** Anything else in the file state: an admin is told a file is needed and nothing changes. */
    method ProcessInvalidFileType(sender: int) returns (reply: Reply)
      modifies this
      ensures catalog == old(catalog)
      ensures !IsAdmin(sender) ==> reply == PermissionDenied && state == Idle && data == EmptyData
      ensures IsAdmin(sender) ==> reply == FileExpected && state == old(state) && data == old(data)
    {
      if !IsAdmin(sender) {
        reply := PermissionDenied;
        Clear();
        return;
      }
      reply := FileExpected;
    }

    /**
     * The checks shared by a typed and a chosen code: without a stored file
     * the workflow ends; a code already in the catalog is refused and the
     * conversation stays where it is; otherwise the code is kept and the
     * name is asked for, with the caption's name as a button.
     */
    method TryCode(code: string) returns (reply: Reply)
      modifies this
      ensures catalog == old(catalog)
      ensures !Truthy(old(data).fileId) ==> reply == MissingFile && state == Idle && data == EmptyData
      ensures Truthy(old(data).fileId) && code in catalog ==>
        reply == CodeTaken(code, NameOr(catalog[code], "Nomsiz")) && state == old(state) && data == old(data)
      ensures Truthy(old(data).fileId) && code !in catalog ==>
        && reply == AskForName(code, NameButton(old(data).suggestedName))
        && state == WaitingForMovieName
        && data == old(data).(finalMovieCode := Some(code))
    {
      if !Truthy(data.fileId) {
        reply := MissingFile;
        Clear();
        return;
      }
      if code in catalog {
        return CodeTaken(code, NameOr(catalog[code], "Nomsiz"));
      }
      data := data.(finalMovieCode := Some(code));
      reply := AskForName(code, NameButton(data.suggestedName));
      state := WaitingForMovieName;
    }

    /**
     * A code button pressed in the code state. The code is the payload's
     * second `:`-separated field, taken as it is. Anybody but an admin is
     * refused and nothing changes.
     */
    method ProcessConfirmCodeCallback(sender: int, payload: string) returns (reply: Reply)
      requires StartsWith(payload, ConfirmCodePrefix)
      modifies this
      ensures catalog == old(catalog)
      ensures !IsAdmin(sender) ==> reply == ActionDenied && state == old(state) && data == old(data)
      ensures IsAdmin(sender) && !Truthy(old(data).fileId) ==> reply == MissingFile && state == Idle && data == EmptyData
      ensures IsAdmin(sender) && Truthy(old(data).fileId) && ButtonValue(payload) in catalog ==>
        && reply == CodeTaken(ButtonValue(payload), NameOr(catalog[ButtonValue(payload)], "Nomsiz"))
        && state == old(state) && data == old(data)
      ensures IsAdmin(sender) && Truthy(old(data).fileId) && ButtonValue(payload) !in catalog ==>
        && reply == AskForName(ButtonValue(payload), NameButton(old(data).suggestedName))
        && state == WaitingForMovieName
        && data == old(data).(finalMovieCode := Some(ButtonValue(payload)))
    {
      if !IsAdmin(sender) {
        return ActionDenied;
      }
      reply := TryCode(ButtonValue(payload));
    }

    /** A code typed in the code state, trimmed and lower-cased; anybody but an admin ends the workflow. */
    method ProcessMovieCodeInput(sender: int, text: string) returns (reply: Reply)
      modifies this
      ensures catalog == old(catalog)
      ensures !IsAdmin(sender) ==> reply == PermissionDenied && state == Idle && data == EmptyData
      ensures IsAdmin(sender) && !Truthy(old(data).fileId) ==> reply == MissingFile && state == Idle && data == EmptyData
      ensures IsAdmin(sender) && Truthy(old(data).fileId) && Normalize(text) in catalog ==>
        && reply == CodeTaken(Normalize(text), NameOr(catalog[Normalize(text)], "Nomsiz"))
        && state == old(state) && data == old(data)
      ensures IsAdmin(sender) && Truthy(old(data).fileId) && Normalize(text) !in catalog ==>
        && reply == AskForName(Normalize(text), NameButton(old(data).suggestedName))
        && state == WaitingForMovieName
        && data == old(data).(finalMovieCode := Some(Normalize(text)))
    {
      if !IsAdmin(sender) {
        reply := PermissionDenied;
        Clear();
        return;
      }
      reply := TryCode(Normalize(text));
    }

    /**
     * The save shared by a typed and a chosen name: the record is written
     * under the pending code and the workflow ends; when the write raises
     * nothing changes; when the confirmation raises after the write, the
     * record is stored but the workflow stays open.
     */
    method SaveMovie(name: string, outcome: SaveOutcome) returns (reply: Reply)
      requires data.fileId.Some? && data.finalMovieCode.Some?
      modifies this
      ensures var written := old(catalog)[old(data).finalMovieCode.value := Movie(old(data).fileId, Some(name))];
        && (outcome == Stored ==>
              reply == Saved(old(data).finalMovieCode.value, name, old(data).fileId.value)
              && catalog == written && state == Idle && data == EmptyData)
        && (outcome == StoreFailed ==>
              reply == SaveFailed && catalog == old(catalog) && state == old(state) && data == old(data))
        && (outcome == StoredButReplyFailed ==>
              reply == SaveFailed && catalog == written && state == old(state) && data == old(data))
    {
      var code := data.finalMovieCode.value;
      var fileId := data.fileId.value;
      if outcome == StoreFailed {
        return SaveFailed;
      }
      catalog := catalog[code := Movie(Some(fileId), Some(name))];
      if outcome == StoredButReplyFailed {
        return SaveFailed;
      }
      reply := Saved(code, name, fileId);
      Clear();
    }

    /** A name button pressed in the name state; the name is the payload's second `:`-separated field. */
    method ProcessConfirmNameCallback(sender: int, payload: string, outcome: SaveOutcome) returns (reply: Reply)
      requires StartsWith(payload, ConfirmNamePrefix)
      modifies this
      ensures !IsAdmin(sender) ==> reply == ActionDenied && catalog == old(catalog) && state == old(state) && data == old(data)
      ensures IsAdmin(sender) && !(Truthy(old(data).fileId) && Truthy(old(data).finalMovieCode)) ==>
        reply == MissingFileOrCode && catalog == old(catalog) && state == Idle && data == EmptyData
      ensures IsAdmin(sender) && Truthy(old(data).fileId) && Truthy(old(data).finalMovieCode) ==>
        var written := old(catalog)[old(data).finalMovieCode.value := Movie(old(data).fileId, Some(ButtonValue(payload)))];
        && (outcome == Stored ==>
              reply == Saved(old(data).finalMovieCode.value, ButtonValue(payload), old(data).fileId.value)
              && catalog == written && state == Idle && data == EmptyData)
        && (outcome == StoreFailed ==>
              reply == SaveFailed && catalog == old(catalog) && state == old(state) && data == old(data))
        && (outcome == StoredButReplyFailed ==>
              reply == SaveFailed && catalog == written && state == old(state) && data == old(data))
    {
      if !IsAdmin(sender) {
        return ActionDenied;
      }
      if !(Truthy(data.fileId) && Truthy(data.finalMovieCode)) {
        reply := MissingFileOrCode;
        Clear();
        return;
      }
      reply := SaveMovie(ButtonValue(payload), outcome);
    }

    /** A name typed in the name state, trimmed; anybody but an admin ends the workflow. */
    method ProcessMovieNameInput(sender: int, text: string, outcome: SaveOutcome) returns (reply: Reply)
      modifies this
      ensures !IsAdmin(sender) ==> reply == PermissionDenied && catalog == old(catalog) && state == Idle && data == EmptyData
      ensures IsAdmin(sender) && !(Truthy(old(data).fileId) && Truthy(old(data).finalMovieCode)) ==>
        reply == MissingFileOrCode && catalog == old(catalog) && state == Idle && data == EmptyData
      ensures IsAdmin(sender) && Truthy(old(data).fileId) && Truthy(old(data).finalMovieCode) ==>
        var written := old(catalog)[old(data).finalMovieCode.value := Movie(old(data).fileId, Some(Strip(text)))];
        && (outcome == Stored ==>
              reply == Saved(old(data).finalMovieCode.value, Strip(text), old(data).fileId.value)
              && catalog == written && state == Idle && data == EmptyData)
        && (outcome == StoreFailed ==>
              reply == SaveFailed && catalog == old(catalog) && state == old(state) && data == old(data))
        && (outcome == StoredButReplyFailed ==>
              reply == SaveFailed && catalog == written && state == old(state) && data == old(data))
    {
      if !IsAdmin(sender) {
        reply := PermissionDenied;
        Clear();
        return;
      }
      if !(Truthy(data.fileId) && Truthy(data.finalMovieCode)) {
        reply := MissingFileOrCode;
        Clear();
        return;
      }
      reply := SaveMovie(Strip(text), outcome);
    }

    /** Anything but text in the name state: an admin is told a text name is needed and nothing changes. */
    method ProcessInvalidNameInput(sender: int) returns (reply: Reply)
      modifies this
      ensures catalog == old(catalog)
      ensures !IsAdmin(sender) ==> reply == PermissionDenied && state == Idle && data == EmptyData
      ensures IsAdmin(sender) ==> reply == TextNameExpected && state == old(state) && data == old(data)
    {
      if !IsAdmin(sender) {
        reply := PermissionDenied;
        Clear();
        return;
      }
      reply := TextNameExpected;
    }

    /**
     * `handle_code_or_name`: silent inside a workflow, "not understood" for
     * raw text starting with `/`, and otherwise the lookup: the exact code's
     * movie, the single name match's movie, a choice of several sorted by
     * name, or not found.
     */
    method HandleCodeOrName(text: string) returns (reply: Reply)
      ensures state != Idle ==> reply == NoReply
      ensures state == Idle && StartsWith(text, "/") ==> reply == NotUnderstood
      ensures state == Idle && !StartsWith(text, "/") ==>
        var q := Normalize(text);
        && (q in catalog ==> reply == Deliver(q, catalog[q]))
        && (q !in catalog && NameMatches(catalog, q) == {} ==> reply == NoMovieFound(text))
        && (q !in catalog && |NameMatches(catalog, q)| == 1 ==>
              exists c :: NameMatches(catalog, q) == {c} && reply == Deliver(c, catalog[c]))
        && (q !in catalog && |NameMatches(catalog, q)| >= 2 ==>
              && reply.ChooseMovie?
              && CodesOf(reply.matches) == NameMatches(catalog, q)
              && |reply.matches| == |NameMatches(catalog, q)|
              && SortedBy(reply.matches, NameLe)
              && FromCatalog(reply.matches, catalog))
    {
      if state != Idle {
        return NoReply;
      }
      if StartsWith(text, "/") {
        return NotUnderstood;
      }
      var found := Resolve(text, catalog);
      match found {
        case ExactCode(code, m) =>
          reply := Deliver(code, m);
        case SingleName(code, m) =>
          reply := Deliver(code, m);
        case Several(ms) =>
          reply := ChooseMovie(ms);
        case NoMatch =>
          reply := NoMovieFound(text);
      }
    }

    /**
     * A movie chosen from a list: the payload's code is looked up again, since
     * the record may be gone. A button built from a code without `:` gives
     * back that code; otherwise the code is cut at its first `:`.
     */
    method SelectMovie(payload: string) returns (reply: Reply)
      requires StartsWith(payload, SelectMoviePrefix)
      ensures ButtonValue(payload) in catalog ==> reply == Deliver(ButtonValue(payload), catalog[ButtonValue(payload)])
      ensures ButtonValue(payload) !in catalog ==> reply == SelectedNotFound
      ensures forall c :: ':' !in c && payload == ButtonData(SelectMoviePrefix, c) ==>
        reply == (if c in catalog then Deliver(c, catalog[c]) else SelectedNotFound)
      ensures forall i :: |SelectMoviePrefix| <= i < |payload| && payload[i] == ':' && ':' !in payload[|SelectMoviePrefix|..i] ==>
        var c := payload[|SelectMoviePrefix|..i];
        reply == (if c in catalog then Deliver(c, catalog[c]) else SelectedNotFound)
    {
      assert SelectMoviePrefix[..|SelectMoviePrefix| - 1] == "select_movie";
      ButtonFields(SelectMoviePrefix, payload);
      var code := ButtonValue(payload);
      if code in catalog {
        reply := Deliver(code, catalog[code]);
      } else {
        reply := SelectedNotFound;
      }
    }

    /** `/listallmovies` and the list button: the chunked listing, or a notice that the catalog is empty. */
    method ListMovies() returns (reply: Reply)
      ensures |catalog| == 0 ==> reply == EmptyCatalog
      ensures |catalog| > 0 ==> reply.Listing? && exists codes ::
        && |codes| == |catalog|
        && (forall k :: k in catalog <==> k in codes)
        && SortedBy(codes, CodeLe)
        && reply.chunks == Chunks(ListingHeader + ListingBody(codes, catalog))
    {
      var codes, chunks := ListAllMovies(catalog);
      if |catalog| == 0 {
        return EmptyCatalog;
      }
      reply := Listing(chunks);
    }

    /**
     * A message, handled by the handler `h` that routing chose for it. The
     * handlers behind the subscription check answer a user who may not pass
     * it with the subscription prompt, and none of them changes the state.
     */
    method HandleMessage(h: Handler, sender: int, c: Content, subscribed: bool, outcome: SaveOutcome) returns (reply: Reply)
      requires Valid()
      requires h == DeleteCodeText ==> state == WaitingForDeleteCode && HasText(c)
      requires h == CancelCommand ==> state != Idle
      requires h == MovieFileMedia ==> state == WaitingForMovieFile && c.Media?
      requires h == CodeText ==> state == WaitingForMovieCode && HasText(c)
      requires h == NameText ==> state == WaitingForMovieName && HasText(c)
      requires h == FreeText ==> state == Idle && HasText(c)
      modifies this
      ensures Valid()
      ensures !IsAdmin(sender) ==> catalog == old(catalog)
      ensures catalog != old(catalog) ==> CatalogStep(old(catalog), catalog, old(state), old(data))
      ensures h == CodeText && IsAdmin(sender) ==> reply != MissingFile
      ensures h in {ListCommand, StartCommand, UserHelpCommand, ListButton, HelpButton, FreeText} ==>
        catalog == old(catalog) && state == old(state) && data == old(data)
      ensures h in {ListCommand, StartCommand, UserHelpCommand, ListButton, HelpButton, FreeText} && !MayUse(sender, subscribed) ==>
        reply == SubscribePrompt
    {
      match h {
        case MyIdCommand =>
          reply := YourId(sender);
        case AdminHelpCommand =>
          reply := if IsAdmin(sender) then AdminHelpText else PermissionDenied;
        case AddMovieCommand =>
          reply := AddMovieStart(sender);
        case DeleteMovieCommand =>
          reply := DeleteMovieStart(sender);
        case DeleteCodeText =>
          ghost var before := catalog;
          reply := ProcessDeleteMovieCode(sender, c.text);
          if catalog != before {
            assert CatalogStep(before, catalog, old(state), old(data)) by {
              assert Normalize(c.text) in before && catalog == before - {Normalize(c.text)};
            }
          }
        case ListCommand =>
          if MayUse(sender, subscribed) {
            reply := ListMovies();
          } else {
            reply := SubscribePrompt;
          }
        case CancelCommand =>
          reply := CancelHandler(sender);
        case MovieFileMedia =>
          reply := ProcessMovieFile(sender, c.fileId, c.caption);
        case OtherInFileState =>
          reply := ProcessInvalidFileType(sender);
        case CodeText =>
          reply := ProcessMovieCodeInput(sender, c.text);
        case NameText =>
          reply := ProcessMovieNameInput(sender, c.text, outcome);
        case OtherInNameState =>
          reply := ProcessInvalidNameInput(sender);
        case StartCommand =>
          reply := if MayUse(sender, subscribed) then Welcome(IsAdmin(sender)) else SubscribePrompt;
        case UserHelpCommand =>
          reply := if MayUse(sender, subscribed) then UserHelpText else SubscribePrompt;
        case ListButton =>
          if MayUse(sender, subscribed) {
            reply := ListMovies();
          } else {
            reply := SubscribePrompt;
          }
        case HelpButton =>
          reply := if MayUse(sender, subscribed) then UserHelpText else SubscribePrompt;
        case FreeText =>
          if MayUse(sender, subscribed) {
            reply := HandleCodeOrName(c.text);
          } else {
            reply := SubscribePrompt;
          }
        case CatchAll =>
          reply := Unrecognized;
        case _ =>
          reply := NoReply;
      }
    }

    /**
     * A button press, handled by the handler `h` that routing chose for it;
     * the movie buttons of a name search are behind the subscription check.
     */
    method HandleCallback(h: Handler, sender: int, d: string, subscribed: bool, outcome: SaveOutcome) returns (reply: Reply)
      requires Valid()
      requires h == ConfirmCodeButton ==> state == WaitingForMovieCode && StartsWith(d, ConfirmCodePrefix)
      requires h == ConfirmNameButton ==> state == WaitingForMovieName && StartsWith(d, ConfirmNamePrefix)
      requires h == SelectMovieButton ==> StartsWith(d, SelectMoviePrefix)
      modifies this
      ensures Valid()
      ensures !IsAdmin(sender) ==> catalog == old(catalog) && state == old(state) && data == old(data)
      ensures catalog != old(catalog) ==> CatalogStep(old(catalog), catalog, old(state), old(data))
      ensures h == ConfirmCodeButton && IsAdmin(sender) ==> reply != MissingFile
      ensures h == SelectMovieButton && !MayUse(sender, subscribed) ==> reply == SubscribePrompt
    {
      match h {
        case SubscriptionCheckButton =>
          reply := SubscriptionStatus(subscribed);
        case ConfirmCodeButton =>
          reply := ProcessConfirmCodeCallback(sender, d);
        case ConfirmNameButton =>
          reply := ProcessConfirmNameCallback(sender, d, outcome);
        case SelectMovieButton =>
          if MayUse(sender, subscribed) {
            reply := SelectMovie(d);
          } else {
            reply := SubscribePrompt;
          }
        case _ =>
          reply := NoReply;
      }
    }

    /**
     * One update: routed in the conversation's state, then handled. Only an
     * admin changes the catalog, and only by saving the pending movie from
     * the name state or deleting one record from the delete state; a button
     * pressed by anybody else changes nothing at all.
     */
    method Dispatch(u: Update, outcome: SaveOutcome) returns (h: Handler, reply: Reply)
      requires Valid()
      modifies this
      ensures Valid()
      ensures h == Route(old(state), u)
      ensures !IsAdmin(u.sender) ==> catalog == old(catalog)
      ensures !IsAdmin(u.sender) && u.Callback? ==> state == old(state) && data == old(data)
      ensures catalog != old(catalog) ==> CatalogStep(old(catalog), catalog, old(state), old(data))
      ensures IsAdmin(u.sender) && h in {CodeText, ConfirmCodeButton} ==> reply != MissingFile
    {
      match u {
        case Message(sender, c, subscribed) =>
          var cmd := CommandOfContent(c);
          var button := LabelOf(c);
          h := RouteMessage(state, cmd, button, c);
          MessageHandlerStates(state, cmd, button, c);
          reply := HandleMessage(h, sender, c, subscribed, outcome);
        case Callback(sender, d, subscribed) =>
          h := RouteCallback(state, d);
          CallbackHandlerStates(state, d);
          reply := HandleCallback(h, sender, d, subscribed, outcome);
      }
    }

    /**
     * An admin's complete registration: `/addmovie`, a file, a new code
     * typed, a name typed, each routed to the handler that carries it. The
     * movie is then stored under the normalised code with the file and the
     * trimmed name, and the workflow is closed.
     */
    method AddMovieFlow(admin: int, start: string, fileId: string, caption: Option<string>, codeText: string, nameText: string)
      returns (code: string)
      requires IsAdmin(admin) && CommandName(start) == Some("addmovie")
      requires fileId != "" && CommandName(CommandText(Media(fileId, caption))).None?
      requires CommandName(codeText).None? && Normalize(codeText) != "" && Normalize(codeText) !in catalog
      requires CommandName(nameText).None? && nameText != ""
      modifies this
      ensures Route(old(state), Message(admin, Text(start), true)) == AddMovieCommand
      ensures Route(WaitingForMovieFile, Message(admin, Media(fileId, caption), true)) == MovieFileMedia
      ensures Route(WaitingForMovieCode, Message(admin, Text(codeText), true)) == CodeText
      ensures Route(WaitingForMovieName, Message(admin, Text(nameText), true)) == NameText
      ensures code == Normalize(codeText)
      ensures catalog == old(catalog)[code := Movie(Some(fileId), Some(Strip(nameText)))]
      ensures state == Idle && data == EmptyData
    {
      AddMovieFromAnyState(state, start, admin, true);
      MediaInFileState(fileId, caption, admin, true);
      WorkflowTextRoutes(codeText, admin, true);
      WorkflowTextRoutes(nameText, admin, true);
      var r1 := AddMovieStart(admin);
      var r2 := ProcessMovieFile(admin, fileId, caption);
      code := Normalize(codeText);
      CodeAndName(admin, code, codeText, nameText);
    }

    /**
     * The last two steps of a registration, once the file is stored. A code
     * that is blank once trimmed would be accepted by the code step and then
     * refused by the name step, which tests the code for truth.
     */
    method CodeAndName(admin: int, code: string, codeText: string, nameText: string)
      requires IsAdmin(admin) && Truthy(data.fileId) && code == Normalize(codeText) && code != "" && code !in catalog
      modifies this
      ensures catalog == old(catalog)[code := Movie(old(data).fileId, Some(Strip(nameText)))]
      ensures state == Idle && data == EmptyData
    {
      var r3 := ProcessMovieCodeInput(admin, codeText);
      var r4 := ProcessMovieNameInput(admin, nameText, Stored);
    }
  }

  /**
   * The only ways the catalog changes: the pending movie saved under the
   * pending code from the name state, or one record deleted from the delete
   * state.
   */
  ghost predicate CatalogStep(before: Movies, after: Movies, s: FsmState, d: SessionData) {
    || (&& s == WaitingForMovieName && d.finalMovieCode.Some? && d.fileId.Some?
        && exists name :: after == before[d.finalMovieCode.value := Movie(d.fileId, Some(name))])
    || (s == WaitingForDeleteCode && exists code :: code in before && after == before - {code})
  }
}
