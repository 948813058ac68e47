# vermuten — a verified model of the riddle game

vermuten is a small web riddle game. One shared play-through walks a cursor
through a list of riddles kept in a JSON file. Every guess is counted. A
Google-login-protected editor adds, edits, deletes and reorders riddles and
writes the file back.

This project models the part of the game that holds state, in Dafny:

| module | file | models |
|---|---|---|
| `RiddleGame` | riddle.dfy | application/Riddle.py: the `Riddle` record, the `RiddleManager` cursor and the `Game` lifecycle with its entry code |
| `JsonLoader` | json_loader.dfy | application/JsonLoader.py: the document, loading and saving as pure functions, and the `ConfigLoader` object that owns the riddle dictionary |
| `Handlers` | handlers.dfy | the request handlers of app.py that change the game: the guess step, `/restart`, create, update, delete and move |
| `Access` | access.dfy | the e-mail allow-list and the `/admin` guard of app.py |
| `Collection` | collection.dfy | a dictionary keyed 0..n-1 that is used as an ordered list, which is how the riddle collection is kept |
| `PyStr` | pystr.dfy | the Python string behaviour the code relies on: `lower`, `strip`, `split`, `join`, `endswith`, `os.path.basename`, `os.path.splitext` |
| `Wrappers` | wrappers.dfy | `Option` |

Modelling choices:

- Objects that the source changes in place are classes:
  - `Riddle`: only `attempts` changes;
  - `RiddleManager`;
  - `Game`;
  - `ConfigLoader`.
- A method that changes state states its whole new state against `old(...)`.
- The riddle dictionary is a `map<int, Riddle>`. It keeps an invariant: keys 0..n-1 (`Contiguous`) and no riddle object stored twice (`Injective`).
- `Ordered(m)` reads the dictionary as a list.
- `Contents()` is the loader's state as a value: the riddle data in order, plus the four global fields.
- The JSON document is an abstract value, `Document`. A key that is absent is `None`.
  - `LoadDocument` states what loading yields.
  - `BuildDocument` states what a save writes.
  - `LoadBuildRoundTrip` connects the two.
- app.py keeps `config_loader` and `riddle_manager` as process-wide globals. The handlers take both as parameters.
  - The manager sees the loader's dictionary: `Synced`.
  - Every editing handler re-establishes that, as the source does with `riddle_manager.riddles = config_loader.get_riddles()`.
- Randomness is a parameter:
  - `draw` stands for the index `random.choice` picks;
  - `draws` stands for the characters `secrets.choice` picks.
- The environment variables `ADMIN_GOOGLE_EMAILS` and `ADMIN_GOOGLE_DOMAIN` and the session's `admin_email` are parameters too.

Two behaviours of the code are easy to misread:

- **Attempt count.** Every submission is counted, correct ones included. Two riddles answered red, wrong, blue give a total of 3 attempts. `Riddle.TestAnswer`, `Handlers.CountGuess` and `RiddleManager.GetTotalAttemptCount` state this.
- **Answer matching.** Matching lowercases only the guess; the stored answers are compared as written. A stored answer with a capital letter therefore never matches (`CapitalisedAnswerNeverMatches`).

## Model

| member | source | states |
|---|---|---|
| RiddleGame.Riddle.constructor | application/Riddle.py:12-31 | every field is stored as given and the attempt counter starts at 0 |
| RiddleGame.Riddle.ResetAttempts | application/Riddle.py:45-46 | the attempt counter becomes 0 |
| RiddleGame.Riddle.TestAnswer | application/Riddle.py:54-63 | the counter rises by exactly one whatever the outcome; the result is true exactly when the lowercased guess is one of the stored answers |
| RiddleGame.CapitalisedAnswerNeverMatches | application/Riddle.py:57-58 | no guess equals a stored answer that holds an upper-case letter, because the guess is lowercased and the answer is not |
| RiddleGame.Riddle.GetRandomIncorrectResponse | application/Riddle.py:65-66 | the response picked is one of the riddle's incorrect-answer responses (the pool must not be empty) |
| RiddleGame.Riddle.GetRandomCorrectResponse | application/Riddle.py:68-69 | the response picked is one of the riddle's correct-answer responses |
| RiddleGame.DataOf | application/JsonLoader.py:78-87 | the persisted fields of each riddle, position by position |
| RiddleGame.SumZero | application/Riddle.py:105-109 | a total of zero counters is zero |
| RiddleGame.SumIncrement | application/Riddle.py:56 | raising one counter by one raises the total by exactly one |
| RiddleGame.SumPrefix | application/Riddle.py:92-93 | the running total over the first k+1 counters is the total over the first k plus counter k |
| RiddleGame.AttemptsOf | application/Riddle.py:92-93 | the list of attempt counters, riddle by riddle |
| RiddleGame.RiddleManager.constructor | application/Riddle.py:73-75 | the manager looks at the given dictionary with the cursor at 0 |
| RiddleGame.RiddleManager.GetCurrentRiddle | application/Riddle.py:77-82 | the riddle under the cursor when the cursor is a key; on keys 0..n-1, None exactly when the cursor is at or past n |
| RiddleGame.RiddleManager.GetCurrentRiddleNumber | application/Riddle.py:84-85 | the cursor plus one, which lies in 1..n while a riddle is current |
| RiddleGame.RiddleManager.GetCompletionMessage | application/Riddle.py:96-97 | the completion message is the one riddle 0 carries |
| RiddleGame.RiddleManager.GetCompletionImageName | application/Riddle.py:99-100 | the completion image is the one riddle 0 carries |
| RiddleGame.RiddleManager.GetRiddleCount | application/Riddle.py:102-103 | on keys 0..n-1 the count is one past the last key: n is not a key and n-1 is, unless there are none |
| RiddleGame.RiddleManager.NextRiddle | application/Riddle.py:87-88 | the cursor rises by exactly one, with no upper bound, and the dictionary is unchanged |
| RiddleGame.RiddleManager.GetTotalAttemptCount | application/Riddle.py:90-94 | the loop's result is the sum of all attempt counters |
| RiddleGame.RiddleManager.ResetProgress | application/Riddle.py:105-109 | the cursor is 0, every counter is 0 and so the total is 0; the dictionary is unchanged |
| RiddleGame.CharRange | application/Riddle.py:128 | n consecutive characters from the first one |
| RiddleGame.AlphabetIsAlnum | application/Riddle.py:128 | the alphabet has 62 characters, exactly the ASCII letters and digits |
| RiddleGame.GenerateEntryCode | application/Riddle.py:127-129 | one alphabet character per draw |
| RiddleGame.EveryEntryCodeGenerable | application/Riddle.py:127-129 | every six-character alphanumeric string comes out of the generator for some draws |
| RiddleGame.Game.constructor | application/Riddle.py:118-125 | a new game is ready, at riddle 0, with no entry code, so the lifecycle invariant holds |
| RiddleGame.Game.NextRiddle | application/Riddle.py:141-142 | the game's cursor rises by one and the state and entry code are unchanged |
| RiddleGame.Game.ResetProgress | application/Riddle.py:159-179 | the cursor is 0 and every riddle's counter is 0; a fresh six-character code exactly when in progress, otherwise none; the invariant holds |
| RiddleGame.Game.Start | application/Riddle.py:182-185 | in progress, cursor 0, all counters 0, and an entry code of six alphanumeric characters |
| RiddleGame.Game.Stop | application/Riddle.py:187-190 | ready with no entry code; the invariant holds |
| RiddleGame.Game.MarkReady | application/Riddle.py:192-195 | ready with no entry code; the invariant holds |
| RiddleGame.Game.MarkEditing | application/Riddle.py:197-200 | editing with no entry code; the invariant holds |
| RiddleGame.Game.IsInProgress | application/Riddle.py:202-203 | under the invariant, in progress exactly when there is an entry code |
| RiddleGame.Game.GetEntryCode | application/Riddle.py:205-206 | the stored code; under the invariant, a code exactly while in progress, and always six alphanumeric characters |
| Collection.Ordered | application/JsonLoader.py:51 | the values in key order: position i holds the value of key i |
| Collection.FromSeq | app.py:199 | the dictionary built from a list is keyed 0..n-1 and lists exactly that list |
| Collection.Appended | application/JsonLoader.py:46 | storing at key len(m) keeps the keys 0..n and appends to the list |
| Collection.OrderedInjective | application/JsonLoader.py:142-146 | a dictionary keyed 0..n-1 is determined by the list it holds |
| Collection.ElementsOfOrdered | application/Riddle.py:108-109 | the stored values are exactly the elements of the list |
| Collection.Swapped | app.py:192-194 | the two positions are exchanged, every other position is kept, and the list is a permutation of the old one |
| Collection.SwappedTwice | app.py:191-194 | exchanging the same pair twice restores the list |
| Collection.InjectiveOrdered | application/JsonLoader.py:51 | no riddle stored twice exactly when the list has no repeats |
| Collection.RemoveAndRepack | application/JsonLoader.py:142-146 | removing key `index` and renumbering leaves keys 0..n-2; entries before `index` keep their key and later ones move down by one |
| Collection.RepackedOrder | application/JsonLoader.py:142-146 | the renumbered list is the old list without position `index`; distinct riddles stay distinct and no riddle is added |
| JsonLoader.LoadDocument | application/JsonLoader.py:22-61 | loading succeeds exactly when there is a document with a `riddles` list whose every entry loads, and the loaded riddles are then those entries' data in order |
| JsonLoader.EntryData | application/JsonLoader.py:36-45 | a document riddle loads exactly when it has `question` and `answer`; those are taken as given, and a missing `hint` or `image_name` is "" |
| JsonLoader.DataEntry | application/JsonLoader.py:80-87 | a saved riddle writes all four keys, and that entry loads back to the same riddle |
| JsonLoader.LoadEntries | application/JsonLoader.py:34-46 | succeeds exactly when every entry has a question and an answer, and then yields entry i's data at position i |
| JsonLoader.LoadDocumentFields | application/JsonLoader.py:30-46 | loading fails without a file, without `riddles`, or when an entry lacks `question` or `answer`; otherwise riddle i carries entry i's fields, with a missing `hint` or `image_name` as "", and missing globals as [] or "" |
| JsonLoader.BuildDocument | application/JsonLoader.py:75-94 | a save writes no name, one entry per riddle with all four keys that loads back to that riddle, and the four globals |
| JsonLoader.LoadBuildRoundTrip | application/JsonLoader.py:75-94 | loading what a save writes gives back the riddles in order and the four globals |
| JsonLoader.PayloadData | application/JsonLoader.py:108-113 | each field is the payload's value when present, on its own, and "" (the answer []) when missing; a payload the loader would accept gives the riddle the loader would build |
| JsonLoader.FileBase | application/JsonLoader.py:48 | the file's base name cut at its extension: a prefix of the base name with no '/'; the whole base name when it has no '.'; cut whenever some '.' follows a character that is not '.', and then at the last '.', keeping a character that is not '.' (so ".json" stays ".json") |
| JsonLoader.GameName | application/JsonLoader.py:49 | a non-empty `name` in the document names the game; otherwise the file's base name does |
| JsonLoader.RoundTripLosesName | application/JsonLoader.py:48-49 | a save writes no `name`, so a reloaded game is named after its file |
| JsonLoader.ConfigLoader.constructor | application/JsonLoader.py:12-19 | the path is stored, the dictionary is empty and the globals are [] or "" |
| JsonLoader.ConfigLoader.Open | application/JsonLoader.py:12-61 | construction succeeds exactly when the document loads; the loader then holds what `LoadDocument` yields, fresh riddles with no attempts, and a ready game named after the document or the file |
| JsonLoader.ConfigLoader.LoadConfig | application/JsonLoader.py:22-61 | succeeds exactly when the document loads; the dictionary is keyed 0..k-1 with the document's riddles in order, the globals are set, and the game lists the riddles in order and starts ready |
| JsonLoader.ConfigLoader.LoadRiddles | application/JsonLoader.py:34-46 | succeeds exactly when every entry has a question and an answer; key i then holds a fresh riddle with entry i's data, no attempts and the loader's globals |
| JsonLoader.ConfigLoader.GetConfigFileName | application/JsonLoader.py:70-72 | a prefix of the base name with no '.', followed by '.' whenever it is shorter than the base name |
| JsonLoader.FileNamesAgree | application/JsonLoader.py:48 | when the base name has a single '.', not in front, the game's file name and the configuration file name agree |
| JsonLoader.SingleDotRoot | application/JsonLoader.py:72 | with one '.' at position d > 0, `splitext` and `split(".")[0]` both give the text before it |
| JsonLoader.ConfigLoader.GetRiddleManager | application/JsonLoader.py:66-68 | a new manager over this loader's dictionary, at riddle 0 |
| JsonLoader.ConfigLoader.BuildConfigDict | application/JsonLoader.py:75-94 | the loop builds exactly the document `BuildDocument` describes for the current contents |
| JsonLoader.ConfigLoader.SaveConfig | application/JsonLoader.py:96-104 | the document written is `BuildDocument` of the current contents |
| JsonLoader.ConfigLoader.AddRiddle | application/JsonLoader.py:106-120 | a fresh riddle from the payload (missing fields as "" or []) at key n; every other key unchanged; the list grows by that riddle; the saved document matches |
| JsonLoader.ConfigLoader.UpdateRiddle | application/JsonLoader.py:122-136 | an absent index raises and changes nothing; otherwise only that key changes, to a fresh riddle with no attempts; the saved document matches |
| JsonLoader.ConfigLoader.DeleteRiddle | application/JsonLoader.py:138-147 | an absent index raises and changes nothing; otherwise the keys are 0..n-2 and the list is the old list without that riddle, in the old order |
| JsonLoader.AddThenDeleteRestores | application/JsonLoader.py:106-147 | a dictionary whose list is the old list plus one riddle, with that riddle removed again, is the old dictionary |
| JsonLoader.AddThenDelete | application/JsonLoader.py:106-147 | `add_riddle` and then `delete_riddle` of the new last index restore the dictionary, everything a save writes, and the game |
| Handlers.Play | app.py:25-59 | no guess shows the current riddle and changes nothing; a finished game shows the completion page with riddle 0's message and image and the total over all riddles, changing nothing; a guess is handled as `Guess` states |
| Handlers.Guess | app.py:38-50 | the guessed riddle's counter and the total rise by one and no other counter moves; the cursor advances exactly when the guess matches, otherwise the page repeats the riddle (number, question, image, hint) with one of its incorrect-answer responses |
| Handlers.CompletionIsGlobal | app.py:55-56 | the completion message and image the manager reads from riddle 0 are the loader's global ones |
| Handlers.CountGuess | app.py:39 | only the current riddle's counter moves, so the total rises by exactly one |
| Handlers.Restart | app.py:80-85 | progress is reset only when the game is finished; otherwise nothing changes |
| Handlers.EditFormRoundTrip | app.py:146 | submitting the edit form unchanged stores the same riddle, when the answers are clean |
| Handlers.FormPayload | app.py:123-130 | the payload built from a form always loads, and every parsed answer is non-empty, stripped and free of commas |
| Handlers.EditForm | app.py:143-149 | the edit form shows the riddle's question, hint and image name, and its answers as one field (empty for no answers); `EditFormRoundTrip` shows it parses back |
| Handlers.CreateQuestion | app.py:121-134 | the riddle is appended at key n, the rest is unchanged, the manager sees the new dictionary; the cursor, the globals and the game are kept |
| Handlers.UpdateQuestion | app.py:154-166 | an absent index changes no riddle; otherwise only that riddle is replaced, and the manager is resynchronised; in both cases the cursor, the globals and the game are kept |
| Handlers.DeleteQuestion | app.py:169-179 | an absent index changes no riddle, counter or cursor; the removed riddle keeps its counter; after a delete the list loses that riddle, and a cursor past the shortened list resets progress (cursor 0, counters 0) while otherwise the cursor and the counters are kept; the globals and the game are kept throughout |
| Handlers.ResetWhenPastEnd | app.py:173-178 | a cursor at or past the end of the list resets progress (cursor 0, counters 0); otherwise the cursor and every counter are kept |
| Handlers.MoveApplies | app.py:187-193 | a move needs an index in range and at least two riddles, and only "up" or "down" moves anything |
| Handlers.MovedPair | app.py:191-194 | the pair exchanged is two neighbours in range: for "up" the riddle and the one above it, for "down" the riddle and the one below it |
| Handlers.MoveQuestion | app.py:182-205 | "up" above the top or "down" below the bottom exchanges the riddle with its neighbour and saves; an index out of range or any other move changes nothing and saves nothing; the keys stay 0..n-1; the cursor, the globals and the game are kept |
| Handlers.Reorder | app.py:198-202 | the exchanged list is stored keyed 0..n-1 and saved, the globals, the game and the cursor are kept, and the manager sees it |
| Handlers.SwappedKeepsStore | app.py:199-200 | renumbering an exchanged list keeps the riddles distinct and sharing the loader's globals |
| PyStr.Lower | app.py:275 | lowercasing keeps the length and lowers each character |
| PyStr.LowerIsLower | application/Riddle.py:57 | a lowercased string has no upper-case letter, and lowercasing twice is lowercasing once |
| PyStr.IsSpace | app.py:126 | the character set `str.isspace` accepts, which `strip` removes; blank, tab and newline are in it |
| PyStr.LStrip | app.py:126 | the result is no longer than the input and does not start with white space |
| PyStr.LStripKeeps | app.py:126 | left stripping only removes characters |
| PyStr.RStrip | app.py:126 | the result is no longer than the input and does not end with white space |
| PyStr.RStripPrefix | app.py:126 | right stripping keeps a prefix |
| PyStr.LStripOnlySpace | app.py:126 | left stripping keeps a suffix, and every character it drops is white space |
| PyStr.RStripOnlySpace | app.py:126 | every character right stripping drops is white space |
| PyStr.Strip | app.py:126 | the result has no white space at either end, a stripped string is kept as it is, and no character is added (`StripOnlySpace` locates the result in the input) |
| PyStr.StripOnlySpace | app.py:126 | stripping keeps a contiguous middle of the input and every character it removes on either side is white space |
| PyStr.StripSpacePrefix | app.py:158-160 | a leading blank does not change the stripped text |
| PyStr.Join | app.py:146 | joining nothing gives "", and the result is never shorter than its first piece; `SplitOfJoin` shows that splitting undoes it |
| PyStr.Split | application/JsonLoader.py:72 | at least one piece, no piece holds the separator, and joining the pieces with the separator gives the input back |
| PyStr.SplitNoSep | app.py:126 | text without the separator splits into itself |
| PyStr.SplitConcat | app.py:126 | a leading piece without the separator comes out of the split whole |
| PyStr.SplitOfJoin | app.py:126 | splitting undoes joining pieces that hold no separator |
| PyStr.SplitFirstPiece | application/JsonLoader.py:72 | `split(sep)[0]` is the prefix before the first separator, or all of the text |
| PyStr.Cleaned | app.py:126 | never more pieces than the input, and each one non-empty and stripped |
| PyStr.CleanedConcat | app.py:126 | cleaning works piece by piece, so the pieces keep their order |
| PyStr.CleanedHas | app.py:126 | every piece that is non-blank after stripping is kept, stripped |
| PyStr.CleanedFrom | app.py:126 | every kept element is the stripped form of some piece |
| PyStr.CleanedCommaFree | app.py:126 | pieces without commas give elements without commas |
| PyStr.CommaList | app.py:125-127 | every element is non-empty, stripped and free of commas |
| PyStr.CommaListHas | app.py:125-127 | every non-blank comma-separated piece is in the list, stripped |
| PyStr.CommaListFrom | app.py:274 | every element of the list is a non-blank comma-separated piece, stripped |
| PyStr.CommaListOfJoin | app.py:146 | clean answers joined with ", " parse back into the same list |
| PyStr.CleanedSplitJoin | app.py:158-160 | clean answers joined with ", ", after an optional blank, clean back into the same list |
| PyStr.SplitJoinHead | app.py:146 | splitting the ", "-joined answers at commas gives the first answer, after the optional blank, and then the pieces of the rest |
| PyStr.CleanedHead | app.py:126 | cleaning keeps a clean first answer that follows an optional blank |
| PyStr.EndsWith | app.py:278 | `s.endswith(suffix)` holds exactly when `s` is some text followed by `suffix` |
| PyStr.Basename | application/JsonLoader.py:48 | the text after the last '/', with no '/' in it |
| PyStr.RFind | application/JsonLoader.py:48 | the last index of the character, or -1 when it does not occur |
| PyStr.SplitextRoot | application/JsonLoader.py:48 | `os.path.splitext(b)[0]` is a prefix of `b`: all of `b` when it has no '.'; cut whenever some '.' follows a character that is not '.'; a cut is at the last '.' and keeps a character that is not '.' |
| Access.AllowedEmails | app.py:274 | one entry per cleaned piece, each non-empty and lowercase |
| Access.IsAllowedEmail | app.py:268-279 | an empty address is refused, and with neither variable set everyone is refused |
| Access.AllowedEmailCases | app.py:268-279 | a non-empty address is accepted exactly when a comma-separated entry names it, ignoring blanks and ASCII case, or when a domain is set and the lowercased address ends with "@" and the lowercased domain |
| Access.AllowedEmailIgnoresCase | app.py:275-278 | the decision is the same for an address and its lowercase form |
| Access.IsPublicAdminEndpoint | app.py:290-298 | every public endpoint is an absolute path, and none lies under "/admin", so that test in the guard never lets a request through |
| Access.LoggedIn | app.py:305 | `session.get("admin_email")` is truthy exactly when an address is stored and it is non-empty |
| Access.ProtectAdminPaths | app.py:300-310 | a request passes exactly when its path is not under "/admin" or the session holds an e-mail; a refused request is redirected to the login with its own path as `next` |

## Left out

- Flask plumbing is not modelled: routing, templates, `redirect`/`url_for`, `jsonify`, headers, `/data`, `/admin/questions` listing and `/admin/questions/download`; these only render state.
- Rendering the edit and new-question pages is not modelled beyond `EditForm`, the form the edit page fills in.
- The OAuth routes `login`, `auth` and `logout` call into Authlib, which is not part of this model. `is_allowed_email` is modelled with its environment variables as parameters.
- `require_admin` is not modelled: no route is wrapped by it, and the `/admin` guard is `ProtectAdminPaths`.
- File I/O and JSON text are not modelled: `open`, `json.loads`, `json.dump` and the `/admin/upload` overwrite. The document is an abstract value, and a failed read or parse is the `None` source.
- Malformed documents are not modelled: JSON values of the wrong type (a `riddles` that is not a list, a null field) do not arise in the typed `Document`.
- SaveConfig: a failing write (which raises `ConfigLoadException`) is not modelled; the method returns the document it would write.
- Randomness is a parameter: `random.choice` is the index `draw` (the pool must not be empty), and `secrets.choice` is the list of `draws`.
- Logging is left out throughout.
- The `Game` getters `get_current_riddle`, `get_current_riddle_number`, `get_total_attempt_count`, `get_completion_message`, `get_completion_image_name` and `get_riddle_count` (application/Riddle.py:131-157) are not modelled, because nothing in app.py calls them. On the list the game holds, `get_riddle_count` and the two completion getters (for a non-empty list) work. `get_current_riddle` lets the `IndexError` past the end escape, since it catches only `KeyError`. `get_total_attempt_count` calls `.items()`, which a list does not have.
- `RiddleManager.get_completion_message` and `get_completion_image_name` index riddle 0 and fail on an empty dictionary; that is a precondition of `Play`'s completion branch, not modelled behaviour.
- The `/admin/progress` page calls `.get_riddle()` on the current riddle, which fails once the game is finished; it only renders and is left out.
- `/admin/reset` is a direct call of `RiddleManager.ResetProgress`, which is modelled.
- The getters (`get_riddle`, `get_hint`, `get_image_name`, `get_attempts`, `get_riddles`) are field reads.
- The loader's `game` is created once, from the list at load time: the editing handlers do not touch it, and the model keeps it unchanged (`game == old(game)`).
- Lower: `str.lower` is modelled for the ASCII letters only; other Unicode case mappings are left out.
- Concurrency is not modelled: the process-wide globals are handled one request at a time.
