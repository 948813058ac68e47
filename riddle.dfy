/** The riddle records, the shared progress cursor over them, and the game
    lifecycle (application/Riddle.py). */
module RiddleGame {
  import opened Wrappers
  import opened PyStr
  import opened Collection

  /** What the document stores for one riddle. */
  datatype RiddleData = RiddleData(question: string, answer: seq<string>, hint: string, imageName: string)

  /** One riddle. Only its attempt counter ever changes after construction;
      the response pools and completion fields are the loader's globals,
      copied into every riddle. */
  class Riddle {
    const riddle: string
    const answer: seq<string>
    const hint: string
    const imageName: string
    const correctResponses: seq<string>
    const incorrectResponses: seq<string>
    const completionMessage: string
    const completionImageName: string
    var attempts: nat

    constructor (riddle: string, answer: seq<string>, hint: string, imageName: string,
                 correctResponses: seq<string>, incorrectResponses: seq<string>,
                 completionMessage: string, completionImageName: string)
      ensures this.riddle == riddle && this.answer == answer
      ensures this.hint == hint && this.imageName == imageName
      ensures this.correctResponses == correctResponses && this.incorrectResponses == incorrectResponses
      ensures this.completionMessage == completionMessage && this.completionImageName == completionImageName
      ensures attempts == 0
    {
      this.riddle := riddle;
      this.answer := answer;
      this.hint := hint;
      this.imageName := imageName;
      this.correctResponses := correctResponses;
      this.incorrectResponses := incorrectResponses;
      this.completionMessage := completionMessage;
      this.completionImageName := completionImageName;
      attempts := 0;
    }

    /** The fields the document persists. */
    function Data(): RiddleData {
      RiddleData(riddle, answer, hint, imageName)
    }

    method ResetAttempts()
      modifies this
      ensures attempts == 0
    {
      attempts := 0;
    }

    /** Counts the attempt first, whatever the outcome; then the guess,
        lowercased, must be one of the stored answers exactly. */
    method TestAnswer(response: string) returns (matched: bool)
      modifies this
      ensures attempts == old(attempts) + 1
      ensures matched <==> Lower(response) in answer
    {
      attempts := attempts + 1;
      var lowered := Lower(response);
      matched := lowered in answer;
    }

    /** `random.choice(self.incorrect_responses)`, the random index given as
        `draw`; the pool must not be empty. */
    function GetRandomIncorrectResponse(draw: nat): (r: string)
      requires draw < |incorrectResponses|
      ensures r in incorrectResponses
    {
      incorrectResponses[draw]
    }

    /** `random.choice(self.correct_responses)`, likewise. */
    function GetRandomCorrectResponse(draw: nat): (r: string)
      requires draw < |correctResponses|
      ensures r in correctResponses
    {
      correctResponses[draw]
    }
  }

  /** The persisted fields of each riddle, in order. A view that the
      loader's round-trip lemmas are stated over. */
  function DataOf(rs: seq<Riddle>): (ds: seq<RiddleData>)
    ensures |ds| == |rs|
    ensures forall i :: 0 <= i < |rs| ==> ds[i] == rs[i].Data()
  {
    seq(|rs|, i requires 0 <= i < |rs| => rs[i].Data())
  }

  /** Stored answers are not lowercased, so an answer holding a capital
      letter is matched by no guess at all. */
  lemma CapitalisedAnswerNeverMatches(answer: string, response: string)
    requires !IsLower(answer)
    ensures Lower(response) != answer
  {
    LowerIsLower(response);
  }

  // ---------------------------------------------------------------------
  // Attempt totals
  // ---------------------------------------------------------------------

  /** Sum of a sequence of counters. */
  function Sum(xs: seq<nat>): nat {
    if xs == [] then 0 else Sum(xs[..|xs| - 1]) + xs[|xs| - 1]
  }

  lemma SumPrefix(xs: seq<nat>, k: nat)
    requires k < |xs|
    ensures Sum(xs[..k + 1]) == Sum(xs[..k]) + xs[k]
  {
    assert xs[..k + 1][..k] == xs[..k];
  }

  lemma {:induction false} SumZero(xs: seq<nat>)
    requires forall i :: 0 <= i < |xs| ==> xs[i] == 0
    ensures Sum(xs) == 0
  {
    if xs != [] {
      SumZero(xs[..|xs| - 1]);
    }
  }

  /** Bumping one counter raises the total by exactly one. */
  lemma {:induction false} SumIncrement(xs: seq<nat>, i: nat)
    requires i < |xs|
    ensures Sum(xs[i := xs[i] + 1]) == Sum(xs) + 1
  {
    var ys := xs[i := xs[i] + 1];
    if i < |xs| - 1 {
      assert ys[..|ys| - 1] == xs[..|xs| - 1][i := xs[i] + 1];
      SumIncrement(xs[..|xs| - 1], i);
    } else {
      assert ys[..|ys| - 1] == xs[..|xs| - 1];
    }
  }

  /** The attempt counters of a sequence of riddles. A view that the
      attempt total is stated over. */
  ghost function AttemptsOf(rs: seq<Riddle>): (xs: seq<nat>)
    reads rs
    ensures |xs| == |rs|
    ensures forall i :: 0 <= i < |rs| ==> xs[i] == rs[i].attempts
  {
    if rs == [] then [] else AttemptsOf(rs[..|rs| - 1]) + [rs[|rs| - 1].attempts]
  }

  // ---------------------------------------------------------------------
  // The progress cursor
  // ---------------------------------------------------------------------

  /** One shared play-through: a cursor into the riddle dictionary. */
  class RiddleManager {
    var riddles: map<int, Riddle>
    var currentRiddleIndex: nat

    /** The dictionary is keyed 0..n-1 and holds distinct riddles. */
    ghost predicate Valid()
      reads this`riddles
    {
      Contiguous(riddles) && Injective(riddles)
    }

    constructor (riddles: map<int, Riddle>)
      ensures this.riddles == riddles && currentRiddleIndex == 0
    {
      this.riddles := riddles;
      currentRiddleIndex := 0;
    }

    /** The riddle under the cursor, or None once the cursor is past the
        last key. */
    function GetCurrentRiddle(): (r: Option<Riddle>)
      reads this
      ensures r.Some? ==> currentRiddleIndex in riddles && r.value == riddles[currentRiddleIndex]
      ensures Contiguous(riddles) ==> (r.None? <==> currentRiddleIndex >= |riddles|)
    {
      if currentRiddleIndex in riddles then Some(riddles[currentRiddleIndex]) else None
    }

    /** The 1-based number of the current riddle (a view of the cursor). */
    function GetCurrentRiddleNumber(): (n: int)
      reads this
      ensures n == currentRiddleIndex + 1
      ensures Contiguous(riddles) && GetCurrentRiddle().Some? ==> 1 <= n <= |riddles|
    {
      currentRiddleIndex + 1
    }

    function GetRiddleCount(): (n: nat)
      reads this
      ensures Contiguous(riddles) ==> n !in riddles && (n > 0 ==> n - 1 in riddles)
    {
      |riddles|
    }

    /** The completion text is read from the riddle at key 0. */
    function GetCompletionMessage(): (m: string)
      reads this
      requires 0 in riddles
      ensures m == riddles[0].completionMessage
    {
      riddles[0].completionMessage
    }

    function GetCompletionImageName(): (name: string)
      reads this
      requires 0 in riddles
      ensures name == riddles[0].completionImageName
    {
      riddles[0].completionImageName
    }

    /** Advances without any bound check. */
    method NextRiddle()
      modifies this
      ensures currentRiddleIndex == old(currentRiddleIndex) + 1
      ensures riddles == old(riddles)
    {
      currentRiddleIndex := currentRiddleIndex + 1;
    }

    /** The sum of all attempt counters. */
    ghost function TotalAttempts(): nat
      reads this`riddles, Elements(riddles)
      requires Contiguous(riddles)
    {
      ElementsOfOrdered(riddles);
      Sum(AttemptsOf(Ordered(riddles)))
    }

    method GetTotalAttemptCount() returns (total: nat)
      requires Valid()
      ensures total == TotalAttempts()
    {
      ghost var xs := AttemptsOf(Ordered(riddles));
      total := 0;
      var k := 0;
      while k < |riddles|
        invariant 0 <= k <= |riddles|
        invariant total == Sum(xs[..k])
      {
        SumPrefix(xs, k);
        total := total + riddles[k].attempts;
        k := k + 1;
      }
      assert xs[..k] == xs;
    }

    /** Back to the first riddle with every counter at zero. */
    method ResetProgress()
      requires Valid()
      modifies this, Elements(riddles)
      ensures riddles == old(riddles) && currentRiddleIndex == 0
      ensures forall k :: k in riddles ==> riddles[k].attempts == 0
      ensures TotalAttempts() == 0
    {
      currentRiddleIndex := 0;
      var k := 0;
      while k < |riddles|
        invariant 0 <= k <= |riddles|
        invariant riddles == old(riddles) && currentRiddleIndex == 0
        invariant forall j :: 0 <= j < k ==> riddles[j].attempts == 0
      {
        riddles[k].ResetAttempts();
        k := k + 1;
      }
      SumZero(AttemptsOf(Ordered(riddles)));
    }
  }

  // ---------------------------------------------------------------------
  // Entry codes
  // ---------------------------------------------------------------------

  /** `n` consecutive characters starting at `first`: a view the
      alphabet is built from. */
  function CharRange(first: char, n: nat): (r: string)
    requires first as int + n <= 0xD800
    ensures |r| == n
    ensures forall i :: 0 <= i < n ==> r[i] as int == first as int + i
  {
    seq(n, i requires 0 <= i < n => (first as int + i) as char)
  }

  /** `string.ascii_letters + string.digits`. */
  const Alphabet: string := CharRange('a', 26) + CharRange('A', 26) + CharRange('0', 10)

  const EntryCodeLength: nat := 6

  predicate IsAlnum(c: char) {
    'a' <= c <= 'z' || 'A' <= c <= 'Z' || '0' <= c <= '9'
  }

  /** The alphabet has 62 characters: exactly the ASCII letters and digits. */
  lemma AlphabetIsAlnum()
    ensures |Alphabet| == 62
    ensures forall c :: c in Alphabet <==> IsAlnum(c)
  {
    var lower, upper, digits := CharRange('a', 26), CharRange('A', 26), CharRange('0', 10);
    assert Alphabet == lower + upper + digits;
    forall c | IsAlnum(c) ensures c in Alphabet {
      if 'a' <= c <= 'z' {
        assert lower[c as int - 'a' as int] == c;
      } else if 'A' <= c <= 'Z' {
        assert upper[c as int - 'A' as int] == c;
      } else {
        assert digits[c as int - '0' as int] == c;
      }
    }
  }

  /** Indexes into the alphabet, as `secrets.choice` draws them. */
  predicate ValidDraws(draws: seq<nat>) {
    forall i :: 0 <= i < |draws| ==> draws[i] < |Alphabet|
  }

  /** A code the game may hand out: six characters of the alphabet. */
  predicate IsEntryCode(s: string) {
    |s| == EntryCodeLength && forall i :: 0 <= i < |s| ==> s[i] in Alphabet
  }

  /** `"".join(secrets.choice(alphabet) for _ in range(length))`, with the
      random draws given; `length` is `|draws|`. */
  function GenerateEntryCode(draws: seq<nat>): (code: string)
    requires ValidDraws(draws)
    ensures |code| == |draws|
    ensures forall i :: 0 <= i < |code| ==> code[i] in Alphabet
  {
    seq(|draws|, i requires 0 <= i < |draws| => Alphabet[draws[i]])
  }

  function IndexOf(s: string, c: char): (i: nat)
    requires c in s
    ensures i < |s| && s[i] == c
  {
    if s[0] == c then 0 else 1 + IndexOf(s[1..], c)
  }

  /** Every six-character alphanumeric code can come out of the generator. */
  lemma EveryEntryCodeGenerable(code: string)
    requires IsEntryCode(code)
    ensures exists draws :: |draws| == EntryCodeLength && ValidDraws(draws) && GenerateEntryCode(draws) == code
  {
    var draws := seq(|code|, i requires 0 <= i < |code| => IndexOf(Alphabet, code[i]));
    assert GenerateEntryCode(draws) == code;
  }

  // ---------------------------------------------------------------------
  // Game lifecycle
  // ---------------------------------------------------------------------

  datatype GameState = Editing | Ready | InProgress

  /** A game: named riddle list, its own cursor, a lifecycle state and an
      entry code that exists exactly while the game is in progress. */
  class Game {
    const name: string
    const riddles: seq<Riddle>
    var currentRiddleIndex: nat
    var state: GameState
    var entryCode: Option<string>

    ghost predicate Valid()
      reads this
    {
      && (entryCode.Some? <==> state == InProgress)
      && (entryCode.Some? ==> IsEntryCode(entryCode.value))
    }

    constructor (name: string, riddles: seq<Riddle>)
      ensures Valid()
      ensures this.name == name && this.riddles == riddles
      ensures currentRiddleIndex == 0 && state == Ready && entryCode == None
    {
      this.name := name;
      this.riddles := riddles;
      currentRiddleIndex := 0;
      state := Ready;
      entryCode := None;
    }

    method NextRiddle()
      modifies this
      ensures currentRiddleIndex == old(currentRiddleIndex) + 1
      ensures state == old(state) && entryCode == old(entryCode)
    {
      currentRiddleIndex := currentRiddleIndex + 1;
    }

    /** Cursor to 0, every counter to 0, and a fresh code if (and only if)
        the game is in progress. */
    method ResetProgress(draws: seq<nat>)
      requires state == InProgress ==> |draws| == EntryCodeLength && ValidDraws(draws)
      modifies this, riddles
      ensures Valid()
      ensures state == old(state) && currentRiddleIndex == 0
      ensures forall i :: 0 <= i < |riddles| ==> riddles[i].attempts == 0
      ensures entryCode == if state == InProgress then Some(GenerateEntryCode(draws)) else None
    {
      currentRiddleIndex := 0;
      for i := 0 to |riddles|
        invariant state == old(state) && currentRiddleIndex == 0
        invariant forall j :: 0 <= j < i ==> riddles[j].attempts == 0
      {
        riddles[i].ResetAttempts();
      }
      if state == InProgress {
        entryCode := Some(GenerateEntryCode(draws));
      } else {
        entryCode := None;
      }
    }

    method Start(draws: seq<nat>)
      requires |draws| == EntryCodeLength && ValidDraws(draws)
      modifies this, riddles
      ensures Valid()
      ensures state == InProgress && currentRiddleIndex == 0
      ensures forall i :: 0 <= i < |riddles| ==> riddles[i].attempts == 0
      ensures entryCode == Some(GenerateEntryCode(draws)) && IsEntryCode(entryCode.value)
    {
      state := InProgress;
      ResetProgress(draws);
    }

    method Stop()
      modifies this
      ensures Valid()
      ensures state == Ready && entryCode == None
      ensures currentRiddleIndex == old(currentRiddleIndex)
    {
      state := Ready;
      entryCode := None;
    }

    method MarkReady()
      modifies this
      ensures Valid()
      ensures state == Ready && entryCode == None
      ensures currentRiddleIndex == old(currentRiddleIndex)
    {
      state := Ready;
      entryCode := None;
    }

    method MarkEditing()
      modifies this
      ensures Valid()
      ensures state == Editing && entryCode == None
      ensures currentRiddleIndex == old(currentRiddleIndex)
    {
      state := Editing;
      entryCode := None;
    }

    /** Under the invariant, being in progress is having an entry code. */
    predicate IsInProgress()
      reads this
      ensures IsInProgress() <==> state == InProgress
      ensures Valid() ==> (IsInProgress() <==> entryCode.Some?)
    {
      state == InProgress
    }

    function GetEntryCode(): (r: Option<string>)
      reads this
      ensures r == entryCode
      ensures Valid() ==> (r.Some? <==> IsInProgress())
      ensures Valid() && r.Some? ==> IsEntryCode(r.value)
    {
      entryCode
    }
  }
}
