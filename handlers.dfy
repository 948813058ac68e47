/** The request handlers of app.py that change the game, reduced to their
    effect on the store and on the progress cursor. The process-wide
    `config_loader` and `riddle_manager` are passed in; the manager is
    expected to look at the loader's dictionary. */
module Handlers {
  import opened Wrappers
  import opened PyStr
  import opened Collection
  import opened RiddleGame
  import opened JsonLoader

  /** `riddle_manager.riddles` is the loader's dictionary. */
  ghost predicate Synced(loader: ConfigLoader, manager: RiddleManager)
    reads loader, manager
  {
    loader.Valid() && manager.riddles == loader.riddleCollection
  }

  /** The completion page the manager shows carries the loader's global
      completion message and image, whichever riddle holds them. */
  lemma CompletionIsGlobal(loader: ConfigLoader, manager: RiddleManager)
    requires Synced(loader, manager) && 0 in manager.riddles
    ensures manager.GetCompletionMessage() == loader.completionMessage
    ensures manager.GetCompletionImageName() == loader.completionImageName
  {
    assert loader.SharesGlobals(loader.riddleCollection[0]);
  }

  // ---------------------------------------------------------------------
  // The player's pages
  // ---------------------------------------------------------------------

  /** What `/` answers with: the riddle page (with an incorrect-answer
      response after a wrong guess), the redirect after a right guess, or
      the completion page. */
  datatype Page =
    | RiddlePage(number: int, question: string, imageName: string, hint: string, response: Option<string>)
    | Advanced
    | CompletePage(message: string, imageName: string, attempts: nat)

  /** `/` with an optional `guess`; `draw` stands for `random.choice`. A
      finished game reads its completion fields from riddle 0, and a wrong
      guess needs a response to pick. */
  method Play(manager: RiddleManager, guess: Option<string>, draw: nat) returns (page: Page)
    requires manager.Valid()
    requires manager.GetCurrentRiddle().None? ==> 0 in manager.riddles
    requires manager.GetCurrentRiddle().Some? && guess.Some? &&
             Lower(guess.value) !in manager.GetCurrentRiddle().value.answer ==>
               draw < |manager.GetCurrentRiddle().value.incorrectResponses|
    modifies manager, Elements(manager.riddles)
    ensures manager.riddles == old(manager.riddles) && manager.Valid()
    ensures old(manager.GetCurrentRiddle()).None? ==>
      && manager.currentRiddleIndex == old(manager.currentRiddleIndex)
      && (forall r :: r in Elements(manager.riddles) ==> r.attempts == old(r.attempts))
      && page == CompletePage(manager.riddles[0].completionMessage, manager.riddles[0].completionImageName,
                              manager.TotalAttempts())
    ensures var shown := old(manager.GetCurrentRiddle());
      shown.Some? && guess.None? ==>
        && manager.currentRiddleIndex == old(manager.currentRiddleIndex)
        && (forall r :: r in Elements(manager.riddles) ==> r.attempts == old(r.attempts))
        && page == RiddlePage(old(manager.currentRiddleIndex) + 1, shown.value.riddle, shown.value.imageName,
                              shown.value.hint, None)
    ensures var guessed := old(manager.GetCurrentRiddle());
      guessed.Some? && guess.Some? ==>
        && guessed.value.attempts == old(guessed.value.attempts) + 1
        && (forall r :: r in Elements(manager.riddles) && r != guessed.value ==> r.attempts == old(r.attempts))
        && manager.TotalAttempts() == old(manager.TotalAttempts()) + 1
        && (Lower(guess.value) in guessed.value.answer ==>
              manager.currentRiddleIndex == old(manager.currentRiddleIndex) + 1 && page == Advanced)
        && (Lower(guess.value) !in guessed.value.answer ==>
              && manager.currentRiddleIndex == old(manager.currentRiddleIndex)
              && page.RiddlePage? && page.number == old(manager.currentRiddleIndex) + 1
              && page.question == guessed.value.riddle && page.imageName == guessed.value.imageName
              && page.hint == guessed.value.hint
              && page.response.Some? && page.response.value in guessed.value.incorrectResponses)
  {
    var current := manager.GetCurrentRiddle();
    var riddleId := manager.GetCurrentRiddleNumber();
    if guess.None? && current.Some? {
      var r := current.value;
      page := RiddlePage(riddleId, r.riddle, r.imageName, r.hint, None);
    } else if guess.Some? && current.Some? {
      page := Guess(manager, guess.value, draw);
    } else {
      var total := manager.GetTotalAttemptCount();
      page := CompletePage(manager.GetCompletionMessage(), manager.GetCompletionImageName(), total);
    }
  }

  /** A submitted guess for the current riddle: the attempt is counted
      whether or not it is right; a right guess advances the cursor, a wrong
      one answers with one of the riddle's incorrect-answer responses. */
  method Guess(manager: RiddleManager, guess: string, draw: nat) returns (page: Page)
    requires manager.Valid() && manager.GetCurrentRiddle().Some?
    requires Lower(guess) !in manager.GetCurrentRiddle().value.answer ==>
               draw < |manager.GetCurrentRiddle().value.incorrectResponses|
    modifies manager, Elements(manager.riddles)
    ensures manager.riddles == old(manager.riddles) && manager.Valid()
    ensures var guessed := old(manager.GetCurrentRiddle()).value;
      && guessed.attempts == old(guessed.attempts) + 1
      && (forall r :: r in Elements(manager.riddles) && r != guessed ==> r.attempts == old(r.attempts))
      && manager.TotalAttempts() == old(manager.TotalAttempts()) + 1
      && (Lower(guess) in guessed.answer ==>
            manager.currentRiddleIndex == old(manager.currentRiddleIndex) + 1 && page == Advanced)
      && (Lower(guess) !in guessed.answer ==>
            && manager.currentRiddleIndex == old(manager.currentRiddleIndex)
            && page.RiddlePage? && page.number == old(manager.currentRiddleIndex) + 1
            && page.question == guessed.riddle && page.imageName == guessed.imageName
            && page.hint == guessed.hint
            && page.response.Some? && page.response.value in guessed.incorrectResponses)
  {
    var r := manager.GetCurrentRiddle().value;
    var riddleId := manager.GetCurrentRiddleNumber();
    var matched := CountGuess(manager, guess);
    ghost var total := manager.TotalAttempts();
    if matched {
      manager.NextRiddle();
      assert manager.TotalAttempts() == total;
      page := Advanced;
    } else {
      page := RiddlePage(riddleId, r.riddle, r.imageName, r.hint, Some(r.GetRandomIncorrectResponse(draw)));
    }
  }

  /** `test_answer` on the current riddle, as seen from the total: only
      that riddle's counter moves, so the total rises by one. */
  method CountGuess(manager: RiddleManager, guess: string) returns (matched: bool)
    requires manager.Valid() && manager.GetCurrentRiddle().Some?
    modifies manager.GetCurrentRiddle().value
    ensures var guessed := old(manager.GetCurrentRiddle()).value;
      && guessed.attempts == old(guessed.attempts) + 1
      && (matched <==> Lower(guess) in guessed.answer)
    ensures manager.TotalAttempts() == old(manager.TotalAttempts()) + 1
  {
    var r := manager.GetCurrentRiddle().value;
    ghost var i := manager.currentRiddleIndex;
    ghost var xs := AttemptsOf(Ordered(manager.riddles));
    matched := r.TestAnswer(guess);
    assert AttemptsOf(Ordered(manager.riddles)) == xs[i := xs[i] + 1] by {
      forall k | 0 <= k < |xs| && k != i ensures manager.riddles[k] != r { }
    }
    SumIncrement(xs, i);
  }

  /** `/restart`: progress is reset only once the game is complete. */
  method Restart(manager: RiddleManager)
    requires manager.Valid()
    modifies manager, Elements(manager.riddles)
    ensures manager.riddles == old(manager.riddles)
    ensures old(manager.GetCurrentRiddle()).None? ==>
      && manager.currentRiddleIndex == 0
      && (forall k :: k in manager.riddles ==> manager.riddles[k].attempts == 0)
      && manager.TotalAttempts() == 0
    ensures old(manager.GetCurrentRiddle()).Some? ==>
      && manager.currentRiddleIndex == old(manager.currentRiddleIndex)
      && forall r :: r in Elements(manager.riddles) ==> r.attempts == old(r.attempts)
  {
    var current := manager.GetCurrentRiddle();
    if current.None? {
      manager.ResetProgress();
    }
  }

  // ---------------------------------------------------------------------
  // The editor
  // ---------------------------------------------------------------------

  /** The fields of a posted edit form; an absent field is None. */
  datatype Form = Form(question: Option<string>, answer: Option<string>, hint: Option<string>, imageName: Option<string>)

  /** The payload built from a form: missing fields become "", and the
      answer field is split at commas into stripped, non-empty answers. */
  function FormPayload(f: Form): (p: RiddleEntry)
    ensures EntryData(p).Some?
    ensures forall i :: 0 <= i < |p.answer.value| ==>
      p.answer.value[i] != "" && IsStripped(p.answer.value[i]) && ',' !in p.answer.value[i]
  {
    RiddleEntry(Some(f.question.GetOr("")), Some(CommaList(f.answer.GetOr(""))),
                Some(f.hint.GetOr("")), Some(f.imageName.GetOr("")))
  }

  /** The form the edit page fills in for a riddle: answers joined with ", ". */
  function EditForm(d: RiddleData): (f: Form)
    ensures f.question == Some(d.question) && f.hint == Some(d.hint) && f.imageName == Some(d.imageName)
    ensures f.answer.Some? && (d.answer == [] ==> f.answer.value == "")
  {
    Form(Some(d.question), Some(Join(d.answer, ", ")), Some(d.hint), Some(d.imageName))
  }

  /** Submitting the edit page unchanged stores the same riddle, as long as
      every stored answer is stripped, non-empty and free of commas. */
  lemma EditFormRoundTrip(d: RiddleData)
    requires forall i :: 0 <= i < |d.answer| ==> d.answer[i] != "" && IsStripped(d.answer[i]) && ',' !in d.answer[i]
    ensures PayloadData(FormPayload(EditForm(d))) == d
  {
    CommaListOfJoin(d.answer);
  }

  /** `/admin/questions/create`: appends the riddle and re-points the
      manager at the dictionary. */
  method CreateQuestion(loader: ConfigLoader, manager: RiddleManager, form: Form)
    requires Synced(loader, manager)
    modifies loader, manager
    ensures Synced(loader, manager)
    ensures var n := |old(loader.riddleCollection)|;
      && n in loader.riddleCollection
      && loader.riddleCollection == old(loader.riddleCollection)[n := loader.riddleCollection[n]]
      && loader.riddleCollection[n].attempts == 0
    ensures loader.Contents() ==
      old(loader.Contents()).(riddles := old(loader.Contents()).riddles + [PayloadData(FormPayload(form))])
    ensures manager.currentRiddleIndex == old(manager.currentRiddleIndex)
    ensures loader.incorrectResponses == old(loader.incorrectResponses)
    ensures loader.correctResponses == old(loader.correctResponses)
    ensures loader.completionMessage == old(loader.completionMessage)
    ensures loader.completionImageName == old(loader.completionImageName)
    ensures loader.game == old(loader.game)
  {
    var written := loader.AddRiddle(FormPayload(form));
    manager.riddles := loader.riddleCollection;
  }

  /** `/admin/questions/update/<index>`: replaces one riddle; an absent
      index raises before anything changes. */
  method UpdateQuestion(loader: ConfigLoader, manager: RiddleManager, index: int, form: Form)
    requires Synced(loader, manager)
    modifies loader, manager
    ensures Synced(loader, manager)
    ensures index !in old(loader.riddleCollection) ==>
      loader.riddleCollection == old(loader.riddleCollection)
    ensures index in old(loader.riddleCollection) ==>
      && index in loader.riddleCollection
      && loader.riddleCollection == old(loader.riddleCollection)[index := loader.riddleCollection[index]]
      && loader.riddleCollection[index].attempts == 0
      && loader.Contents() ==
           old(loader.Contents()).(riddles := old(loader.Contents()).riddles[index := PayloadData(FormPayload(form))])
    ensures manager.currentRiddleIndex == old(manager.currentRiddleIndex)
    ensures loader.incorrectResponses == old(loader.incorrectResponses)
    ensures loader.correctResponses == old(loader.correctResponses)
    ensures loader.completionMessage == old(loader.completionMessage)
    ensures loader.completionImageName == old(loader.completionImageName)
    ensures loader.game == old(loader.game)
  {
    var result := loader.UpdateRiddle(index, FormPayload(form));
    if result.ConfigLoadException? {
      return;
    }
    manager.riddles := loader.riddleCollection;
  }

  /** `/admin/questions/delete/<index>`: removes one riddle, then resets
      progress when the cursor is past the shortened list; an absent index
      raises before anything changes. */
  method DeleteQuestion(loader: ConfigLoader, manager: RiddleManager, index: int)
    requires Synced(loader, manager)
    modifies loader, manager, Elements(loader.riddleCollection)
    ensures Synced(loader, manager)
    ensures index !in old(loader.riddleCollection) ==>
      && loader.riddleCollection == old(loader.riddleCollection)
      && manager.currentRiddleIndex == old(manager.currentRiddleIndex)
      && forall r :: r in Elements(loader.riddleCollection) ==> r.attempts == old(r.attempts)
    ensures forall r :: r in old(Elements(loader.riddleCollection)) && r !in Elements(loader.riddleCollection) ==>
      r.attempts == old(r.attempts)
    ensures index in old(loader.riddleCollection) ==>
      && Ordered(loader.riddleCollection) ==
           old(Ordered(loader.riddleCollection))[..index] + old(Ordered(loader.riddleCollection))[index + 1..]
      && (old(manager.currentRiddleIndex) >= |loader.riddleCollection| ==>
            && manager.currentRiddleIndex == 0
            && (forall k :: k in manager.riddles ==> manager.riddles[k].attempts == 0))
      && (old(manager.currentRiddleIndex) < |loader.riddleCollection| ==>
            && manager.currentRiddleIndex == old(manager.currentRiddleIndex)
            && forall r :: r in Elements(manager.riddles) ==> r.attempts == old(r.attempts))
    ensures loader.incorrectResponses == old(loader.incorrectResponses)
    ensures loader.correctResponses == old(loader.correctResponses)
    ensures loader.completionMessage == old(loader.completionMessage)
    ensures loader.completionImageName == old(loader.completionImageName)
    ensures loader.game == old(loader.game)
  {
    var result := loader.DeleteRiddle(index);
    if result.ConfigLoadException? {
      return;
    }
    manager.riddles := loader.riddleCollection;
    ResetWhenPastEnd(manager);
  }

  /** The check after a delete: a cursor past the end of the list resets
      progress; otherwise nothing changes. */
  method ResetWhenPastEnd(manager: RiddleManager)
    requires manager.Valid()
    modifies manager, Elements(manager.riddles)
    ensures manager.riddles == old(manager.riddles)
    ensures old(manager.currentRiddleIndex) >= |manager.riddles| ==>
      && manager.currentRiddleIndex == 0
      && forall k :: k in manager.riddles ==> manager.riddles[k].attempts == 0
    ensures old(manager.currentRiddleIndex) < |manager.riddles| ==>
      && manager.currentRiddleIndex == old(manager.currentRiddleIndex)
      && forall r :: r in Elements(manager.riddles) ==> r.attempts == old(r.attempts)
  {
    var current := manager.GetCurrentRiddle();
    if current.None? && manager.GetCurrentRiddleNumber() > manager.GetRiddleCount() {
      manager.ResetProgress();
    }
  }

  /** A move happens for "up" below the top and "down" above the bottom of
      an in-range index. */
  function MoveApplies(index: int, direction: string, n: nat): (applies: bool)
    ensures applies ==> 0 <= index < n && 2 <= n
    ensures direction != "up" && direction != "down" ==> !applies
  {
    0 <= index < n && ((direction == "up" && index > 0) || (direction == "down" && index < n - 1))
  }

  /** The pair of positions a move exchanges. */
  function MovedPair(index: int, direction: string, n: nat): (p: (nat, nat))
    requires MoveApplies(index, direction, n)
    ensures p.0 < n && p.1 == p.0 + 1
    ensures p.0 == index || p.1 == index
    ensures direction == "up" ==> p.1 == index
    ensures direction == "down" ==> p.0 == index
  {
    if direction == "up" then (index - 1, index) else (index, index + 1)
  }

  /** `/admin/questions/move/<index>/<direction>`: exchanges a riddle with
      its neighbour, re-keys 0..n-1 and saves; an index out of range or a
      move off either end changes nothing and saves nothing. */
  method MoveQuestion(loader: ConfigLoader, manager: RiddleManager, index: int, direction: string)
    returns (saved: Option<Document>)
    requires Synced(loader, manager)
    modifies loader, manager
    ensures Synced(loader, manager)
    ensures manager.currentRiddleIndex == old(manager.currentRiddleIndex)
    ensures loader.incorrectResponses == old(loader.incorrectResponses)
    ensures loader.correctResponses == old(loader.correctResponses)
    ensures loader.completionMessage == old(loader.completionMessage)
    ensures loader.completionImageName == old(loader.completionImageName)
    ensures loader.game == old(loader.game)
    ensures MoveApplies(index, direction, old(|loader.riddleCollection|)) ==>
      var p := MovedPair(index, direction, old(|loader.riddleCollection|));
      && Ordered(loader.riddleCollection) == Swapped(old(Ordered(loader.riddleCollection)), p.0, p.1)
      && saved == Some(BuildDocument(loader.Contents()))
    ensures !MoveApplies(index, direction, old(|loader.riddleCollection|)) ==>
      loader.riddleCollection == old(loader.riddleCollection) && saved == None
  {
    var rc := loader.riddleCollection;
    var n := |rc|;
    if index < 0 || index >= n {
      return None;
    }
    var lst := Ordered(rc);
    if direction == "up" && index > 0 {
      lst := lst[index - 1 := lst[index]][index := lst[index - 1]];
    } else if direction == "down" && index < n - 1 {
      lst := lst[index := lst[index + 1]][index + 1 := lst[index]];
    } else {
      return None;
    }
    var p := MovedPair(index, direction, n);
    assert lst == Swapped(Ordered(rc), p.0, p.1);
    var written := Reorder(loader, manager, lst, p.0, p.1);
    saved := Some(written);
  }

  /** Stores the list `lst`, which exchanges positions `i` and `j` of the
      store, re-keyed 0..n-1; saves it and re-points the manager. */
  method Reorder(loader: ConfigLoader, manager: RiddleManager, lst: seq<Riddle>, i: nat, j: nat)
    returns (written: Document)
    requires Synced(loader, manager)
    requires i < |loader.riddleCollection| && j < |loader.riddleCollection|
    requires lst == Swapped(Ordered(loader.riddleCollection), i, j)
    modifies loader, manager
    ensures Synced(loader, manager)
    ensures manager.currentRiddleIndex == old(manager.currentRiddleIndex)
    ensures loader.incorrectResponses == old(loader.incorrectResponses)
    ensures loader.correctResponses == old(loader.correctResponses)
    ensures loader.completionMessage == old(loader.completionMessage)
    ensures loader.completionImageName == old(loader.completionImageName)
    ensures loader.game == old(loader.game)
    ensures Ordered(loader.riddleCollection) == lst
    ensures written == BuildDocument(loader.Contents())
  {
    SwappedKeepsStore(loader, loader.riddleCollection, i, j);
    loader.riddleCollection := FromSeq(lst);
    written := loader.SaveConfig();
    manager.riddles := loader.riddleCollection;
  }

  /** Re-keying a swapped list keeps the loader's invariant. */
  lemma SwappedKeepsStore(loader: ConfigLoader, rc: map<int, Riddle>, i: nat, j: nat)
    requires Contiguous(rc) && Injective(rc) && i < |rc| && j < |rc|
    requires forall k :: k in rc ==> loader.SharesGlobals(rc[k])
    ensures var m := FromSeq(Swapped(Ordered(rc), i, j));
      Injective(m) && forall k :: k in m ==> loader.SharesGlobals(m[k])
  {
    var s := Ordered(rc);
    var m := FromSeq(Swapped(s, i, j));
    InjectiveOrdered(rc);
    InjectiveOrdered(m);
    forall k | k in m ensures loader.SharesGlobals(m[k]) {
      var k' := if k == i then j else if k == j then i else k;
      assert m[k] == rc[k'];
    }
  }
}
