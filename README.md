# Movie code bot: a verified model

The bot hands out movies stored in the `movies` collection. Each movie sits
under a short code, for example `7` or `avatar`. A user sends a code or part
of a title, and the bot sends the stored file. When several titles match, it
offers a choice first. Admins run two workflows:
- `/addmovie`: the bot suggests the next free number, then asks for the
  file, then the code and then the title. Codes and titles can be chosen on
  buttons built from the file's caption.
- `/deletemovie`: the bot asks for a code and removes that record.

`/listallmovies` lists the catalog in code order, split into messages
Telegram accepts. Non-admins must be subscribed to the bot's channels.

The model has one module per concern:

| module | file | what it holds |
|---|---|---|
| `Maybe` | `maybe.dfy` | optional values and Python truthiness of an optional string |
| `Strings` | `strings.dfy` | what the bot uses of `str`: `strip`, `lower` on ASCII, `isdigit`, `int`/`str`, `split(':')`, substring, ordering |
| `Sorting` | `sorting.dfy` | `sorted` under a key comparison, as a stable insertion sort, with proofs that it orders and permutes |
| `MovieStore` | `store.dfy` | the catalog as a map from code to document; normalising a raw listing; the listing's sort order, its text and its 4096-character chunks |
| `CodeAllocator` | `allocator.dfy` | `get_next_available_code`: collect the digit-only codes, sort their values, scan for the first gap; proved against a relational specification |
| `Caption` | `caption.dfy` | the two caption regexes, worked out as `re.search` runs them on ASCII text; the last-line-wins scan; the code buttons; `split(":")[1]` on button payloads |
| `Lookup` | `lookup.dfy` | the search behind free text: exact code first, else a case-insensitive title search sorted by title |
| `Routing` | `routing.dfy` | conversation state, session data and updates; which handler aiogram runs for an update, in decorator order |
| `MovieBot` | `bot.dfy` | a `Bot` class whose fields are the catalog, the state and the session data; one method per handler; `Dispatch` routes and handles one update |

A few members are definitions that other contracts are written in, not
properties of their own: `MovieStore.NameOr` (`movie.get('name', fallback)`),
`MovieBot.Deliver` (the reply that sends a stored movie), `Caption.Matches`
(the match attempt at every offset of a line) and `Caption.LineValues` (what
each caption line gives). Their behaviour is stated by the members that use
them, such as `Caption.SearchLeftmost`, `Caption.LastFoundIsLast` and
`MovieBot.Bot.SelectMovie`.

Each handler is a method that updates `catalog`, `state` and `data`. Its
`ensures` states the whole new state in every branch, including refusals and
missing session data. The class invariant `Valid` and the predicate
`CatalogStep` tie these together in `Dispatch`:
- only an admin changes the catalog;
- it changes only by saving the pending movie from the name state, or by
  deleting one record from the delete state;
- a button pressed by anybody else changes nothing at all.

Some behaviours of the code matter when reading the model:
- **The allocator's docstring promise.** The docstring says the allocator
  returns the smallest positive integer not in use. That holds only when
  the digit-only codes denote distinct positive numbers
  (`CodeAllocator.NextCodeIsSmallestUnused`). With codes `0` and `1` it
  answers 1. With codes `1`, `01` and `2` it answers 2. Both answers are
  already in use (`ZeroCodeCounterexample`, `LeadingZeroCounterexample`).
  The model keeps the code's behaviour and states it exactly with
  `IsNextCode`.
- **`/cancel` depends on the state.** The delete-code handler is registered
  before the cancel handler, so in the delete state `/cancel` is taken as a
  code to delete. Outside any workflow, the cancel handler's state filter
  fails. The text then reaches the free-text handler, which answers "not
  understood". The cancel handler's own "nothing active" branch is
  unreachable (`Routing.CancelByState`).
- **The keyboard's help button misses its handler.** The keyboard shows
  `Yordam ❓`, but the handler waits for `❓ Yordam`. A press is therefore
  searched for as a movie (`Routing.HelpButtonMissesItsHandler`).
- **Typed and chosen values differ.**
  - Typed codes are trimmed and lower-cased.
  - Codes and titles chosen on a button are `data.split(":")[1]`, taken as
    they are. A title with a colon is cut at it (`Caption.NameButtonExample`).
- **`handle_code_or_name` never sees a workflow.** Its check for a workflow
  state never fires, because every state has a text handler registered
  earlier (`Routing.FreeTextOnlyWhenIdle`).
- **The last caption line wins.** A later matching caption line replaces an
  earlier one (`Caption.LastFoundIsLast`). A name the caption does not give
  leaves an earlier suggestion in the session (`MovieBot.KeepName`).
- **A blank code dead-ends.** A code that is blank once trimmed passes the
  code step. The name step then refuses it, because it tests the code for
  truth, and the workflow ends (`MovieBot.Bot.CodeAndName` needs a
  non-blank code).

## Model

| member | source | states |
|---|---|---|
| Strings.LStripShape | main_movie_bot.py:436 | what `lstrip` leaves is a suffix of the input, the dropped prefix is all whitespace, and the result does not begin with whitespace |
| Strings.RStripShape | main_movie_bot.py:436 | what `rstrip` leaves is a prefix of the input, the dropped suffix is all whitespace, and the result does not end with whitespace |
| Strings.StripShape | main_movie_bot.py:654 | `strip()` removes exactly a whitespace prefix and a whitespace suffix, and its result has whitespace at neither end |
| Strings.Strip | main_movie_bot.py:654 | definition of `strip()` as `lstrip` then `rstrip`; what it removes is stated by `StripShape` and `StripPadding` |
| Strings.StripPadding | main_movie_bot.py:654 | whitespace typed before and after a stripped text is exactly what `strip()` removes |
| Strings.StripIdempotent | main_movie_bot.py:654 | stripping twice is stripping once |
| Strings.Lower | main_movie_bot.py:783 | `lower()` maps every character on its own: ASCII capitals to small letters, everything else unchanged, and keeps the length |
| Strings.LowerStrip | main_movie_bot.py:783 | lower-casing and stripping can be done in either order |
| Strings.Normalize | main_movie_bot.py:320 | `strip().lower()` yields a stripped string no longer than its input |
| Strings.NormalizeIdempotent | main_movie_bot.py:783 | normalising a normalised query changes nothing |
| Strings.NormalizeFixed | main_movie_bot.py:564 | a word without whitespace or upper-case letters is its own normal form |
| Strings.NormalizePadding | main_movie_bot.py:783 | whitespace around a stripped text does not change its normal form |
| Strings.NormalizeIgnoresCase | main_movie_bot.py:783 | texts that differ only in the case of ASCII letters have the same normal form |
| Strings.LowerIdempotent | main_movie_bot.py:810 | lower-casing twice is lower-casing once |
| Strings.NatToString | main_movie_bot.py:287 | `str(n)` is a non-empty digit string |
| Strings.NatToStringRoundTrip | main_movie_bot.py:201-202 | `int(str(n)) == n` |
| Strings.NatToStringInjective | main_movie_bot.py:195-196 | different numbers give different strings |
| Strings.IsSubstringAt | main_movie_bot.py:810 | the substring test `query in name` holds exactly when the query occurs at some offset |
| Strings.SplitOn | main_movie_bot.py:512 | `split` yields at least one piece and no piece holds the separator |
| Strings.SplitJoin | main_movie_bot.py:441 | joining the pieces of a split with the separator gives back the string |
| Strings.SplitNone | main_movie_bot.py:441 | a string without the separator splits into itself alone |
| Strings.SplitAfterPrefix | main_movie_bot.py:512 | splitting `p + sep + t` with `p` free of the separator yields `p` and then the pieces of `t` |
| Strings.StrLeTotal | main_movie_bot.py:359 | Python's string order is total |
| Strings.StrLeTransitive | main_movie_bot.py:359 | Python's string order is transitive |
| Strings.StrLeAntisymmetric | main_movie_bot.py:359 | two strings each at most the other are equal |
| Strings.NonSpaceRunShape | main_movie_bot.py:443 | the greedy `\S+` run is a prefix without whitespace that stops at whitespace or at the end |
| Sorting.SortBy | main_movie_bot.py:359 | `sorted` returns a permutation of its input |
| Sorting.SortBySorted | main_movie_bot.py:359 | under a total preorder the sort's result is ordered |
| Sorting.InsertBySorted | main_movie_bot.py:207 | inserting into an ordered sequence keeps it ordered |
| Sorting.SameElements | main_movie_bot.py:853 | a permutation has the same elements |
| MovieStore.Normalise | main_movie_bot.py:188-196 | a dict listing is kept as it is; in a list listing, each present item `i` is stored under `str(i)`; every key of the result is such an index with a present item |
| MovieStore.CodeLe | main_movie_bot.py:359 | definition of the sort key `(int(x) if x.isdigit() else inf, x)` as a comparison; its order is stated by `CodeLeTotalPreorder`, `CodeLeAntisymmetric` and `ListingOrder` |
| MovieStore.CodeLeTotalPreorder | main_movie_bot.py:359 | the listing's sort key orders all codes totally and transitively |
| MovieStore.CodeLeAntisymmetric | main_movie_bot.py:359 | two distinct codes never tie under the listing's key |
| MovieStore.ListingOrder | main_movie_bot.py:340 | in the sorted listing, digit codes come before the others, digit codes in numeric order, the others in string order |
| MovieStore.ListingLine | main_movie_bot.py:365-368 | definition of one listing line, the code with the record's name or `Nomsiz Film`; `BuildListing` states that the text is these lines in order |
| MovieStore.Chunks | main_movie_bot.py:373-378 | the chunks concatenate to the text, none is longer than 4096, all but the last are exactly 4096, and none is empty for a non-empty text |
| MovieStore.ChunkAt | main_movie_bot.py:374 | chunk `k` of a long text is the slice `t[4096*k : 4096*(k+1)]` the comprehension takes |
| MovieStore.ChunkCount | main_movie_bot.py:374 | there are as many chunks as `range(0, len(t), 4096)` yields offsets |
| MovieStore.KeysOf | main_movie_bot.py:359 | the catalog's keys, each exactly once |
| MovieStore.BuildListing | main_movie_bot.py:356-370 | the listing text is the header followed by one line per code in the given order |
| MovieStore.SortedCodes | main_movie_bot.py:357-362 | every catalog key once, ordered by the listing's key |
| MovieStore.ListAllMovies | main_movie_bot.py:335-380 | no messages for an empty catalog; otherwise every code once, in order, and the chunked text of their lines |
| CodeAllocator.CollectCodes | main_movie_bot.py:198-202 | the collected values are the values of the digit-only codes, each with the number of codes that denote it |
| CodeAllocator.NextAvailableCode | main_movie_bot.py:178-211 | the answer is the one the sorted values determine: 1 for none, else the first position `i+1` holding another value, else the last value plus one |
| CodeAllocator.ScanSorted | main_movie_bot.py:204-211 | the scan over the sorted values gives that answer |
| CodeAllocator.FirstGap | main_movie_bot.py:208-210 | the first position whose value is not its index plus one, or the length when there is none |
| CodeAllocator.SortedPrefixIsNextCode | main_movie_bot.py:208-211 | sorted values beginning 1..k and not continuing with k+1 give the answer k+1 |
| CodeAllocator.NextCodeUnique | main_movie_bot.py:178-211 | the answer is determined by the codes |
| CodeAllocator.NoDigitCodesGiveOne | main_movie_bot.py:204-205 | with no digit-only code the answer is 1, and only 1 |
| CodeAllocator.NonDigitCodesIgnored | main_movie_bot.py:200-202 | adding codes that are not digit strings never changes the answer |
| CodeAllocator.CountPositiveIsUsed | main_movie_bot.py:200-202 | a value is counted exactly when a digit-only code denotes it |
| CodeAllocator.CountWhenDistinct | main_movie_bot.py:181-182 | under distinct positive values, each value has at most one code and 0 none |
| CodeAllocator.NextCodeIsSmallestUnused | main_movie_bot.py:181-182 | under distinct positive values, the answer is exactly the smallest positive integer no code denotes |
| CodeAllocator.FullSequenceGivesMaxPlusOne | main_movie_bot.py:211 | when codes 1..m are all present and distinct, the answer is m+1 |
| CodeAllocator.ZeroCodeCounterexample | main_movie_bot.py:181-182 | with codes `0` and `1` the answer is 1, a value already in use |
| CodeAllocator.LeadingZeroCounterexample | main_movie_bot.py:181-182 | with codes `1`, `01` and `2` the answer is 2, a value already in use |
| Caption.KeywordEnd | main_movie_bot.py:443 | a keyword match at offset `p` ends within the line |
| Caption.CodeGroup | main_movie_bot.py:443 | the group `(\S+)` captures a non-empty run without whitespace, and it fails exactly when only whitespace follows the keyword |
| Caption.NameGroup | main_movie_bot.py:447 | the group `(.+)` captures something non-empty, and it fails exactly when nothing follows the keyword |
| Caption.FirstSomeIsFirst | main_movie_bot.py:443 | the leftmost present value is the one at the least matching index, and there is none only when no index matches |
| Caption.LastSomeIsLast | main_movie_bot.py:442-449 | the scan keeps the value of the greatest matching index, and nothing only when no index matches |
| Caption.LastSomeStep | main_movie_bot.py:444-445 | one more line replaces the kept value exactly when it matches |
| Caption.SearchLeftmost | main_movie_bot.py:443-447 | `re.search` returns the capture at the leftmost offset where the pattern matches, and nothing when it matches nowhere |
| Caption.SearchCodeShape | main_movie_bot.py:443 | the code pattern captures one non-empty run without whitespace |
| Caption.CodeInLine | main_movie_bot.py:443-445 | definition of what one line gives as a code: the code capture, stripped and lower-cased; its shape is stated by `CodeInLineShape` |
| Caption.CodeInLineShape | main_movie_bot.py:445 | a caption code is one non-empty lower-case word |
| Caption.NameInLine | main_movie_bot.py:447-449 | definition of what one line gives as a name: the name capture, stripped; its shape is stated by `NameInLineStripped` |
| Caption.NameInLineStripped | main_movie_bot.py:449 | a caption name has whitespace at neither end |
| Caption.LastFoundIsLast | main_movie_bot.py:441-449 | a later matching line overrides every earlier one: the kept value is that of the last matching line |
| Caption.ParseCaption | main_movie_bot.py:436-449 | the loop over the caption's lines yields the last line's code and the last line's name, or `""` when no line gives one |
| Caption.CodeSuggestions | main_movie_bot.py:461-470 | definition of the code buttons; what they are is stated by `CodeSuggestionsSpec` |
| Caption.CodeSuggestionsSpec | main_movie_bot.py:461-470 | the buttons are the allocator's code if any, then the caption's code if it is non-empty and different; no code twice, none empty |
| Caption.OfferedCodesNormalized | main_movie_bot.py:461-470 | every code offered on a button is already trimmed and lower-case, so it names the same key a typed code would |
| Caption.FoundCodeNormalized | main_movie_bot.py:445 | the code the caption scan keeps is in normal form |
| Caption.SuggestionsNormalized | main_movie_bot.py:461-470 | buttons built from normalised codes carry normalised codes |
| Caption.ButtonValue | main_movie_bot.py:512 | the value read from a payload holds no `:` |
| Caption.ButtonRoundTrip | main_movie_bot.py:466-470 | a value without `:` comes back unchanged from its button |
| Caption.ButtonTruncates | main_movie_bot.py:614 | a value with a `:` comes back only up to its first `:` |
| Caption.ButtonFields | main_movie_bot.py:512 | a payload that starts with its prefix gives back everything after the prefix when that has no `:`, and otherwise the part up to the first `:` after the prefix |
| Caption.NameButtonExample | main_movie_bot.py:596 | the title `Avatar: Suv Yo'li` confirmed on a button is stored as `Avatar` |
| Lookup.NameLeTotalPreorder | main_movie_bot.py:853 | the lower-cased-title order used for several matches is total and transitive |
| Lookup.DistinctCodesCount | main_movie_bot.py:808-811 | matches with pairwise different codes have as many codes as matches |
| Lookup.CountImpliesDistinct | main_movie_bot.py:808-811 | as many codes as matches means no code occurs twice |
| Lookup.PermutationKeepsCodes | main_movie_bot.py:853 | sorting the matches keeps their codes and their distinctness |
| Lookup.CodesBound | main_movie_bot.py:808-811 | there are never more codes than matches |
| Lookup.CollectNameMatches | main_movie_bot.py:808-811 | the collected matches are exactly the records whose title contains the query, once each, each with its stored record |
| Lookup.Resolve | main_movie_bot.py:783-868 | an exact key wins; otherwise none, one or several title matches decide between a sole record, a choice sorted by title, and not found |
| Lookup.ExactCodeIgnoresCaseAndSpace | main_movie_bot.py:783-790 | a stored normal-form code typed with whitespace around it or with capitals normalises to that code, so `Resolve` answers with its movie |
| Lookup.EmptyQueryMatchesAllNamed | main_movie_bot.py:810 | an empty query that is no code matches every record with a title |
| Routing.CommandNameShape | main_movie_bot.py:228 | a command is the text's first word: `/`, its name, then whitespace or the end |
| Routing.CommandName | main_movie_bot.py:228-383 | definition of the command name the `Command` filters read from a text; its shape is stated by `CommandNameShape` and `IsCommandTextAgrees` |
| Routing.CommandOf | main_movie_bot.py:268 | a text `/name ...` with a plain name is read as command `name` |
| Routing.IsCommandTextAgrees | main_movie_bot.py:268 | for a plain name, the `Command(name)` filter passes exactly when the first word is `/name` |
| Routing.CommandOfContent | main_movie_bot.py:228-383 | the registered command a message passes: it agrees with the text's first word, it is the only registered command whose name that word is, and there is none exactly when the text names no command |
| Routing.NoSlashNoCommand | main_movie_bot.py:777 | a text not starting with `/` after leading whitespace names no command |
| Routing.LabelsAreNotCommands | main_movie_bot.py:742-752 | neither button label reads as a command |
| Routing.CancelClassified | main_movie_bot.py:383 | `/cancel` is the cancel command |
| Routing.CommandIsNoLabel | main_movie_bot.py:742-752 | a command text is neither button label |
| Routing.CancelByState | main_movie_bot.py:309-400 | `/cancel` is taken as a code in the delete state, cancels in the three adding states, and is free text otherwise |
| Routing.CancelRoute | main_movie_bot.py:383 | in a state, a text cancel message goes where `CancelByState` says |
| Routing.DeleteStateTakesText | main_movie_bot.py:309 | in the delete state, every text except the four earlier commands is a code to delete |
| Routing.AddingStatesTakeEverything | main_movie_bot.py:405-694 | in the file and name states every message is taken by an earlier command, a cancel or a handler of that state |
| Routing.FreeTextOnlyWhenIdle | main_movie_bot.py:761-774 | the free-text handler runs only outside any workflow, on non-empty text that no command or button handler took |
| Routing.CallbacksNeverFreeText | main_movie_bot.py:761 | no button press reaches the free-text handler |
| Routing.HelpButtonMissesItsHandler | main_movie_bot.py:215-221 | the keyboard's help label reaches the free-text handler, not the help handler at line 752 |
| Routing.HelpShownIsPlain | main_movie_bot.py:221 | the shown help label is no command and neither handler's label |
| Routing.PlainTextWhenIdle | main_movie_bot.py:761 | outside a workflow, a non-empty text that is no command and no label is free text |
| Routing.AddMovieFromAnyState | main_movie_bot.py:268 | `/addmovie` reaches its handler in every state |
| Routing.AddMovieClassified | main_movie_bot.py:268 | `/addmovie` is the add command |
| Routing.DeleteMovieFromAnyState | main_movie_bot.py:291 | `/deletemovie` reaches its handler in every state |
| Routing.DeleteMovieClassified | main_movie_bot.py:291 | `/deletemovie` is the delete command |
| Routing.WorkflowTextRoutes | main_movie_bot.py:309-644 | inside a workflow, a non-empty non-command text goes to the text handler of that state |
| Routing.MediaInFileState | main_movie_bot.py:405 | in the file state, a video or document whose caption is no command goes to the file handler |
| Routing.MessageHandlerStates | main_movie_bot.py:228-905 | each message handler runs only in its state and on its kind of message |
| Routing.CallbackHandlerStates | main_movie_bot.py:140-873 | each confirmation button is acted on only in the state that offered it |
| Routing.RouteMessage | main_movie_bot.py:228-904 | definition of aiogram's first-match routing of a message in decorator order; what it routes where is stated by the `Routing` lemmas above |
| Routing.RouteCallback | main_movie_bot.py:140-901 | definition of the same routing for button presses; stated by `CallbackHandlerStates` and `CallbacksNeverFreeText` |
| Routing.Route | main_movie_bot.py:140-904 | definition of routing one update in a state; stated by the `Routing` lemmas above |
| MovieBot.NameButton | main_movie_bot.py:593-599 | a name button is offered exactly when a non-empty name was suggested; its payload is the name behind `confirm_name:`, and a name without `:` comes back whole |
| MovieBot.KeepName | main_movie_bot.py:473-475 | a name found in the caption replaces the suggestion, and an earlier suggestion survives a caption without a name |
| MovieBot.FileReply | main_movie_bot.py:436-470 | the answer to a file offers the code buttons built from the allocator's and the caption's codes, and reports the caption's name |
| MovieBot.Bot.constructor | main_movie_bot.py:61 | a conversation starts outside any workflow with no session data |
| MovieBot.Bot.Clear | main_movie_bot.py:399 | `state.clear()` ends the workflow and forgets the session data |
| MovieBot.Bot.AddMovieStart | main_movie_bot.py:268-288 | an admin is offered the allocator's answer, which the session keeps, and enters the file state; anybody else is refused and nothing changes |
| MovieBot.Bot.DeleteMovieStart | main_movie_bot.py:291-306 | an admin enters the delete state; anybody else is refused and nothing changes |
| MovieBot.Bot.ProcessDeleteMovieCode | main_movie_bot.py:309-332 | the normalised text's record is removed when present and is otherwise reported missing; the workflow ends in every case |
| MovieBot.Bot.CancelHandler | main_movie_bot.py:383-400 | an admin's workflow is cancelled; anybody else is refused and keeps the state |
| MovieBot.Bot.ProcessMovieFile | main_movie_bot.py:405-484 | an admin's file is kept with the caption's name, the code buttons are offered and the code is asked for; without a file id nothing changes; anybody else ends the workflow |
| MovieBot.Bot.ProcessInvalidFileType | main_movie_bot.py:487-499 | an admin is told a file is needed and nothing changes; anybody else ends the workflow |
| MovieBot.Bot.TryCode | main_movie_bot.py:517-550 | without a stored file the workflow ends; a taken code is refused with the state kept; a free code is kept and the name is asked for |
| MovieBot.Bot.ProcessConfirmCodeCallback | main_movie_bot.py:502-550 | a button's code goes through those checks unnormalised; a non-admin's press changes nothing |
| MovieBot.Bot.ProcessMovieCodeInput | main_movie_bot.py:553-601 | a typed code goes through those checks trimmed and lower-cased; a non-admin ends the workflow |
| MovieBot.Bot.SaveMovie | main_movie_bot.py:627-640 | a successful save stores file and name under the pending code and ends the workflow; a failed write changes nothing; a failed confirmation keeps the write and the workflow |
| MovieBot.Bot.ProcessConfirmNameCallback | main_movie_bot.py:604-640 | a button's name is saved unnormalised; missing file or code ends the workflow; a non-admin's press changes nothing |
| MovieBot.Bot.ProcessMovieNameInput | main_movie_bot.py:643-680 | a typed name is saved trimmed; missing file or code ends the workflow; a non-admin ends the workflow |
| MovieBot.Bot.ProcessInvalidNameInput | main_movie_bot.py:683-694 | an admin is told a text name is needed and nothing changes; anybody else ends the workflow |
| MovieBot.Bot.HandleCodeOrName | main_movie_bot.py:761-868 | silent in a workflow; "not understood" for raw text starting with `/`; otherwise the exact code's movie, the sole title match's movie, a choice of all title matches sorted by title, or not found |
| MovieBot.Bot.SelectMovie | main_movie_bot.py:871-901 | the code read from the button is looked up again: its movie is sent, or the user is told it is gone; a button built from a code without `:` looks up that code, and otherwise the code is cut at its first `:` |
| MovieBot.Bot.ListMovies | main_movie_bot.py:335-380 | the chunked listing of every code in order, or a notice for an empty catalog |
| MovieBot.Bot.HandleMessage | main_movie_bot.py:228-921 | the routed message handler keeps the invariant; only admins change the catalog, and only as `CatalogStep` allows; the handlers behind the subscription gate answer a user who may not pass it with the subscription prompt and change nothing |
| MovieBot.Bot.HandleCallback | main_movie_bot.py:140-901 | the same for button presses; a non-admin's press changes nothing; a movie button pressed by a user who may not pass the gate gets the subscription prompt |
| MovieBot.Bot.Dispatch | main_movie_bot.py:61-921 | one update runs the handler routing picks; only admins change the catalog, only by saving from the name state or deleting from the delete state; a typed or chosen code never meets a missing file |
| MovieBot.Bot.AddMovieFlow | main_movie_bot.py:268-680 | an admin's `/addmovie`, file, new code and name reach their handlers and store the file under the normalised code with the trimmed name, closing the workflow |
| MovieBot.Bot.CodeAndName | main_movie_bot.py:553-680 | once a file is stored, a new non-blank code and a name store the record and close the workflow |

## Left out

- Firestore: the `movies` collection is a map. Its failures appear only as the save outcome (`MovieBot.SaveOutcome`). Reads and deletes are taken to succeed. Credential loading and initialisation (`firebase_utils.py`) are not part of this model.
- An empty code: the model treats `""` as an ordinary key. What Firestore does with an empty document id is not modelled.
- Channel membership: `check_all_subscriptions` calls the Telegram API. It appears as the `subscribed` flag of an update. The check-subscription callback is reduced to reporting that flag, without editing the message.
- Wording, HTML formatting, keyboards, `protect_content`, the `file_type_display` text and the video/document distinction: replies are a datatype without text. The listing's lines and chunks are kept in full.
- `/start` registering the user in `stats` and showing the user count: these need the store's statistics, which the model does not keep.
- Sending failures: only the missing `file_id` of a stored movie is modelled (`MovieBot.Deliver`). Other failures of `answer_video` are network errors.
- The listing's line for a record that is not a dict: a present document is always a dict here.
- Empty documents: a document that is present is taken to be a non-empty, and so truthy, dict, because every document the bot writes carries a timestamp. An empty document, which the tests `if existing_movie` and `if movie_data` would treat as missing, is not modelled.
- Caption.ButtonValue: a payload with no `:` gives `""`, where `split(":")[1]` raises `IndexError`. Such a payload cannot reach a handler: every callback handler's filter requires its prefix, which ends in `:`, and the handlers' preconditions say so.
- The `except ValueError` fallback of the listing sort: with `isdigit` read as ASCII digits only, the key converts only strings that `int` accepts, so it cannot raise. Python's `isdigit` also accepts other digits, such as `²`, which `int` refuses; the fallback that would then run is not modelled.
- Telegram's 64-byte limit on button payloads: outside the bot's code.
- Commands addressed as `/name@botname`: such a command is treated as no plain command.
- Unicode: `lower`, `isdigit`, `\s` and `\S` use ASCII letters, ASCII digits and Python's whitespace characters. Python's full case mapping is not modelled, nor the `re.IGNORECASE` folding of KELVIN SIGN onto `k` and of LATIN SMALL LETTER LONG S onto `s` in the caption patterns.
- Polling, the webhook, the health check, startup and shutdown: I/O plumbing.
- `async` execution and concurrent conversations: each update is one sequential step on one conversation. Two admins racing for one code are not modelled.
- Sort stability: `Sorting.SortBy` is stable, but no lemma states stability. No property of the bot depends on the order of equal keys.
