/** The riddle store: the JSON document as an abstract value, the pure
    meaning of loading and saving it, and the loader object that keeps the
    riddle dictionary (application/JsonLoader.py). */
module JsonLoader {
  import opened Wrappers
  import opened PyStr
  import opened Collection
  import opened RiddleGame

  /** Every failure of the loader raises the one exception type. */
  datatype Result<T> = Ok(value: T) | ConfigLoadException

  /** A riddle object of the document, or an editor payload; an absent key
      is None. */
  datatype RiddleEntry = RiddleEntry(
    question: Option<string>,
    answer: Option<seq<string>>,
    hint: Option<string>,
    imageName: Option<string>)

  /** The top-level document object. */
  datatype Document = Document(
    name: Option<string>,
    riddles: Option<seq<RiddleEntry>>,
    incorrectResponses: Option<seq<string>>,
    correctResponses: Option<seq<string>>,
    completionMessage: Option<string>,
    completionImageName: Option<string>)

  /** What the loader keeps of a document. */
  datatype GameConfig = GameConfig(
    riddles: seq<RiddleData>,
    incorrectResponses: seq<string>,
    correctResponses: seq<string>,
    completionMessage: string,
    completionImageName: string)

  // ---------------------------------------------------------------------
  // Loading and building, as functions
  // ---------------------------------------------------------------------

  /** A document riddle: `question` and `answer` are required, `hint` and
      `image_name` default to "". */
  function EntryData(e: RiddleEntry): (d: Option<RiddleData>)
    ensures d.Some? <==> e.question.Some? && e.answer.Some?
    ensures d.Some? ==> d.value.question == e.question.value && d.value.answer == e.answer.value
    ensures d.Some? && e.hint.None? ==> d.value.hint == ""
    ensures d.Some? && e.imageName.None? ==> d.value.imageName == ""
  {
    if e.question.None? || e.answer.None? then None
    else Some(RiddleData(e.question.value, e.answer.value, e.hint.GetOr(""), e.imageName.GetOr("")))
  }

  /** The riddle list: fails as soon as one entry lacks a required key. */
  function LoadEntries(es: seq<RiddleEntry>): (r: Result<seq<RiddleData>>)
    ensures r.Ok? <==> forall i :: 0 <= i < |es| ==> EntryData(es[i]).Some?
    ensures r.Ok? ==> |r.value| == |es| && forall i :: 0 <= i < |es| ==> EntryData(es[i]) == Some(r.value[i])
  {
    if es == [] then Ok([])
    else match EntryData(es[0])
      case None => ConfigLoadException
      case Some(d) =>
        match LoadEntries(es[1..])
        case ConfigLoadException =>
          assert exists i :: 0 <= i < |es[1..]| && EntryData(es[1..][i]).None?;
          ConfigLoadException
        case Ok(ds) => Ok([d] + ds)
  }

  /** What `_load_config` makes of the parsed file; `source` is None when
      the file could not be read or parsed. */
  function LoadDocument(source: Option<Document>): (r: Result<GameConfig>)
    ensures r.Ok? <==>
      source.Some? && source.value.riddles.Some? && LoadEntries(source.value.riddles.value).Ok?
    ensures r.Ok? ==> r.value.riddles == LoadEntries(source.value.riddles.value).value
  {
    match source
    case None => ConfigLoadException
    case Some(doc) =>
      if doc.riddles.None? then ConfigLoadException
      else match LoadEntries(doc.riddles.value)
        case ConfigLoadException => ConfigLoadException
        case Ok(ds) =>
          Ok(GameConfig(ds, doc.incorrectResponses.GetOr([]), doc.correctResponses.GetOr([]),
                        doc.completionMessage.GetOr(""), doc.completionImageName.GetOr("")))
  }

  /** Loading, field by field: the failure cases and the defaults. */
  lemma LoadDocumentFields(doc: Document)
    ensures LoadDocument(None) == ConfigLoadException
    ensures LoadDocument(Some(doc)).Ok? <==>
      doc.riddles.Some? &&
      forall i :: 0 <= i < |doc.riddles.value| ==>
        doc.riddles.value[i].question.Some? && doc.riddles.value[i].answer.Some?
    ensures LoadDocument(Some(doc)).Ok? ==>
      var c, es := LoadDocument(Some(doc)).value, doc.riddles.value;
      && |c.riddles| == |es|
      && (forall i :: 0 <= i < |es| ==>
            && c.riddles[i].question == es[i].question.value
            && c.riddles[i].answer == es[i].answer.value
            && c.riddles[i].hint == es[i].hint.GetOr("")
            && c.riddles[i].imageName == es[i].imageName.GetOr(""))
      && c.incorrectResponses == doc.incorrectResponses.GetOr([])
      && c.correctResponses == doc.correctResponses.GetOr([])
      && c.completionMessage == doc.completionMessage.GetOr("")
      && c.completionImageName == doc.completionImageName.GetOr("")
  {
    if doc.riddles.Some? {
      var es := doc.riddles.value;
      var r := LoadEntries(es);
      if r.Ok? {
        forall i | 0 <= i < |es| ensures EntryData(es[i]) == Some(r.value[i]) { }
      }
    }
  }

  /** The document object `_build_config_dict` writes for one riddle. */
  function DataEntry(d: RiddleData): (e: RiddleEntry)
    ensures e.question.Some? && e.answer.Some? && e.hint.Some? && e.imageName.Some?
    ensures EntryData(e) == Some(d)
  {
    RiddleEntry(Some(d.question), Some(d.answer), Some(d.hint), Some(d.imageName))
  }

  /** The document `_build_config_dict` writes: riddles in order, the four
      global fields, and no name. */
  function BuildDocument(c: GameConfig): (d: Document)
    ensures d.name.None? && d.riddles.Some? && |d.riddles.value| == |c.riddles|
    ensures forall i :: 0 <= i < |c.riddles| ==> EntryData(d.riddles.value[i]) == Some(c.riddles[i])
    ensures forall i :: 0 <= i < |c.riddles| ==>
      d.riddles.value[i].hint.Some? && d.riddles.value[i].imageName.Some?
    ensures d.incorrectResponses == Some(c.incorrectResponses) && d.correctResponses == Some(c.correctResponses)
    ensures d.completionMessage == Some(c.completionMessage) && d.completionImageName == Some(c.completionImageName)
  {
    Document(None, Some(seq(|c.riddles|, i requires 0 <= i < |c.riddles| => DataEntry(c.riddles[i]))),
             Some(c.incorrectResponses), Some(c.correctResponses),
             Some(c.completionMessage), Some(c.completionImageName))
  }

  /** Saving and loading again gives back everything the loader keeps. */
  lemma LoadBuildRoundTrip(c: GameConfig)
    ensures LoadDocument(Some(BuildDocument(c))) == Ok(c)
  {
    var es := BuildDocument(c).riddles.value;
    assert forall i :: 0 <= i < |es| ==> EntryData(es[i]) == Some(c.riddles[i]);
    var r := LoadEntries(es);
    assert r.value == c.riddles;
  }

  /** The name is not saved: after a round trip the game is named after
      its file. */
  lemma RoundTripLosesName(c: GameConfig, path: string)
    ensures GameName(BuildDocument(c).name, path) == FileBase(path)
  {
  }

  /** An editor payload: every key optional, defaulting to "" or []. */
  function PayloadData(p: RiddleEntry): (d: RiddleData)
    ensures EntryData(p).Some? ==> EntryData(p) == Some(d)
    ensures p.question.Some? ==> d.question == p.question.value
    ensures p.answer.Some? ==> d.answer == p.answer.value
    ensures p.question.None? ==> d.question == ""
    ensures p.answer.None? ==> d.answer == []
    ensures p.hint.None? ==> d.hint == ""
    ensures p.imageName.None? ==> d.imageName == ""
    ensures p.hint.Some? ==> d.hint == p.hint.value
    ensures p.imageName.Some? ==> d.imageName == p.imageName.value
  {
    RiddleData(p.question.GetOr(""), p.answer.GetOr([]), p.hint.GetOr(""), p.imageName.GetOr(""))
  }

  // ---------------------------------------------------------------------
  // Names
  // ---------------------------------------------------------------------

  /** `os.path.splitext(os.path.basename(path))[0]`. */
  function FileBase(path: string): (r: string)
    ensures '/' !in r
    ensures r <= Basename(path) && EndsWith(path, Basename(path))
    ensures var b := Basename(path);
      && ('.' !in b ==> r == b)
      && ((exists j, d :: 0 <= j < d < |b| && b[d] == '.' && b[j] != '.') ==> |r| < |b|)
      && (|r| < |b| ==> b[|r|] == '.' && '.' !in b[|r| + 1..])
      && (|r| < |b| ==> exists j :: 0 <= j < |r| && r[j] != '.')
  {
    SplitextRoot(Basename(path))
  }

  /** `json_config.get("name") or file_base`: a non-empty `name` wins. */
  function GameName(name: Option<string>, path: string): (n: string)
    ensures name.Some? && name.value != "" ==> n == name.value
    ensures name.None? || name.value == "" ==> n == FileBase(path)
  {
    if name.Some? && name.value != "" then name.value else FileBase(path)
  }

  // ---------------------------------------------------------------------
  // The loader object
  // ---------------------------------------------------------------------

  class ConfigLoader {
    const pathToJsonConfig: string
    var riddleCollection: map<int, Riddle>
    var incorrectResponses: seq<string>
    var correctResponses: seq<string>
    var completionMessage: string
    var completionImageName: string
    var game: Game?

    /** A riddle carries the loader's global fields. */
    ghost predicate SharesGlobals(r: Riddle)
      reads this`correctResponses, this`incorrectResponses, this`completionMessage, this`completionImageName
    {
      && r.correctResponses == correctResponses
      && r.incorrectResponses == incorrectResponses
      && r.completionMessage == completionMessage
      && r.completionImageName == completionImageName
    }

    /** Keys 0..n-1, distinct riddle objects, one set of globals. */
    ghost predicate Valid()
      reads this`riddleCollection, this`correctResponses, this`incorrectResponses
      reads this`completionMessage, this`completionImageName
    {
      && Contiguous(riddleCollection)
      && Injective(riddleCollection)
      && forall k :: k in riddleCollection ==> SharesGlobals(riddleCollection[k])
    }

    /** What a save would write, as a value. */
    ghost function Contents(): GameConfig
      reads this`riddleCollection, this`correctResponses, this`incorrectResponses
      reads this`completionMessage, this`completionImageName
      requires Valid()
    {
      GameConfig(DataOf(Ordered(riddleCollection)), incorrectResponses, correctResponses,
                 completionMessage, completionImageName)
    }

    /** The fields `__init__` sets before it loads. */
    constructor (path: string)
      ensures pathToJsonConfig == path && riddleCollection == map[]
      ensures incorrectResponses == [] && correctResponses == []
      ensures completionMessage == "" && completionImageName == "" && game == null
    {
      pathToJsonConfig := path;
      riddleCollection := map[];
      incorrectResponses := [];
      correctResponses := [];
      completionMessage := "";
      completionImageName := "";
      game := null;
    }

    /** `ConfigLoader(path)`: construction followed by `_load_config`;
        `source` is the parsed file, None when it is missing or malformed. */
    static method Open(path: string, source: Option<Document>) returns (r: Result<ConfigLoader>)
      ensures r.Ok? <==> LoadDocument(source).Ok?
      ensures r.Ok? ==>
        var l := r.value;
        && fresh(l) && l.pathToJsonConfig == path && l.Valid()
        && l.Contents() == LoadDocument(source).value
        && (forall k :: k in l.riddleCollection ==> fresh(l.riddleCollection[k]) && l.riddleCollection[k].attempts == 0)
        && l.game != null && fresh(l.game) && l.game.Valid()
        && l.game.name == GameName(source.value.name, path)
        && l.game.riddles == Ordered(l.riddleCollection)
        && l.game.state == Ready && l.game.currentRiddleIndex == 0
    {
      var loader := new ConfigLoader(path);
      var ok := loader.LoadConfig(source);
      r := if ok then Ok(loader) else ConfigLoadException;
    }

    /** `_load_config`: globals with their defaults, then one fresh riddle
        per document entry at keys 0, 1, ..., then the game object. */
    method LoadConfig(source: Option<Document>) returns (ok: bool)
      requires riddleCollection == map[]
      modifies this
      ensures ok <==> LoadDocument(source).Ok?
      ensures ok ==>
        && Valid() && Contents() == LoadDocument(source).value
        && (forall k :: k in riddleCollection ==> fresh(riddleCollection[k]) && riddleCollection[k].attempts == 0)
        && game != null && fresh(game) && game.Valid()
        && game.name == GameName(source.value.name, pathToJsonConfig)
        && game.riddles == Ordered(riddleCollection)
        && game.state == Ready && game.currentRiddleIndex == 0
    {
      if source.None? {
        return false;
      }
      var doc := source.value;
      incorrectResponses := doc.incorrectResponses.GetOr([]);
      correctResponses := doc.correctResponses.GetOr([]);
      completionMessage := doc.completionMessage.GetOr("");
      completionImageName := doc.completionImageName.GetOr("");
      if doc.riddles.None? {
        return false;
      }
      var entries := doc.riddles.value;
      ok := LoadRiddles(entries);
      if !ok {
        return;
      }
      ghost var loaded := GameConfig(LoadEntries(entries).value, incorrectResponses, correctResponses,
                                     completionMessage, completionImageName);
      assert LoadDocument(source) == Ok(loaded);
      assert Contents() == loaded;
      var gameName := GameName(doc.name, pathToJsonConfig);
      var riddlesList := Ordered(riddleCollection);
      game := new Game(gameName, riddlesList);
    }

    /** The loop of `_load_config`: one fresh riddle per entry, stored at
        key `len(riddle_collection)`; stops at the first entry without a
        question or an answer. */
    method LoadRiddles(entries: seq<RiddleEntry>) returns (ok: bool)
      requires riddleCollection == map[]
      modifies this`riddleCollection
      ensures ok <==> LoadEntries(entries).Ok?
      ensures ok ==>
        && Contiguous(riddleCollection) && Injective(riddleCollection)
        && (forall k :: k in riddleCollection ==>
              fresh(riddleCollection[k]) && riddleCollection[k].attempts == 0 && SharesGlobals(riddleCollection[k]))
        && DataOf(Ordered(riddleCollection)) == LoadEntries(entries).value
    {
      for i := 0 to |entries|
        invariant Contiguous(riddleCollection) && |riddleCollection| == i
        invariant Injective(riddleCollection)
        invariant forall k :: k in riddleCollection ==>
          fresh(riddleCollection[k]) && riddleCollection[k].attempts == 0 && SharesGlobals(riddleCollection[k])
        invariant forall j :: 0 <= j < i ==> EntryData(entries[j]) == Some(riddleCollection[j].Data())
      {
        var e := entries[i];
        if e.question.None? || e.answer.None? {
          assert EntryData(entries[i]).None?;
          return false;
        }
        var r := new Riddle(e.question.value, e.answer.value, e.hint.GetOr(""), e.imageName.GetOr(""),
                            correctResponses, incorrectResponses, completionMessage, completionImageName);
        Appended(riddleCollection, r);
        riddleCollection := riddleCollection[|riddleCollection| := r];
      }
      assert DataOf(Ordered(riddleCollection)) == LoadEntries(entries).value;
      ok := true;
    }

    /** `get_config_file_name`: the base name up to its first '.'. */
    function GetConfigFileName(): (r: string)
      ensures r <= Basename(pathToJsonConfig) && '.' !in r
      ensures |r| < |Basename(pathToJsonConfig)| ==> Basename(pathToJsonConfig)[|r|] == '.'
    {
      SplitFirstPiece(Basename(pathToJsonConfig), '.');
      Split(Basename(pathToJsonConfig), '.')[0]
    }

    /** A fresh manager over this loader's dictionary, at the first riddle. */
    method GetRiddleManager() returns (m: RiddleManager)
      ensures fresh(m) && m.riddles == riddleCollection && m.currentRiddleIndex == 0
    {
      m := new RiddleManager(riddleCollection);
    }

    /** `_build_config_dict`. */
    method BuildConfigDict() returns (doc: Document)
      requires Valid()
      ensures doc == BuildDocument(Contents())
    {
      var riddles: seq<RiddleEntry> := [];
      for i := 0 to |riddleCollection|
        invariant |riddles| == i
        invariant forall j :: 0 <= j < i ==> riddles[j] == DataEntry(riddleCollection[j].Data())
      {
        var r := riddleCollection[i];
        riddles := riddles + [RiddleEntry(Some(r.riddle), Some(r.answer), Some(r.hint), Some(r.imageName))];
      }
      doc := Document(None, Some(riddles), Some(incorrectResponses), Some(correctResponses),
                      Some(completionMessage), Some(completionImageName));
      assert riddles == BuildDocument(Contents()).riddles.value;
    }

    /** `save_config`: the document that is written back to the file. */
    method SaveConfig() returns (written: Document)
      requires Valid()
      ensures written == BuildDocument(Contents())
    {
      written := BuildConfigDict();
    }

    /** Appends a fresh riddle at key n and saves. */
    method AddRiddle(payload: RiddleEntry) returns (written: Document)
      requires Valid()
      modifies this
      ensures Valid()
      ensures var n := |old(riddleCollection)|;
        && n in riddleCollection
        && riddleCollection == old(riddleCollection)[n := riddleCollection[n]]
        && fresh(riddleCollection[n])
        && riddleCollection[n].Data() == PayloadData(payload)
        && riddleCollection[n].attempts == 0
      ensures Ordered(riddleCollection) == old(Ordered(riddleCollection)) + [riddleCollection[|old(riddleCollection)|]]
      ensures Contents() == old(Contents()).(riddles := old(Contents()).riddles + [PayloadData(payload)])
      ensures incorrectResponses == old(incorrectResponses) && correctResponses == old(correctResponses)
      ensures completionMessage == old(completionMessage) && completionImageName == old(completionImageName)
      ensures game == old(game)
      ensures written == BuildDocument(Contents())
    {
      var idx := |riddleCollection|;
      var r := new Riddle(payload.question.GetOr(""), payload.answer.GetOr([]), payload.hint.GetOr(""),
                          payload.imageName.GetOr(""), correctResponses, incorrectResponses,
                          completionMessage, completionImageName);
      Appended(riddleCollection, r);
      riddleCollection := riddleCollection[idx := r];
      written := SaveConfig();
    }

    /** Replaces the riddle at `index` with a fresh one (attempts 0) and
        saves; an absent index raises and changes nothing. */
    method UpdateRiddle(index: int, payload: RiddleEntry) returns (result: Result<Document>)
      requires Valid()
      modifies this
      ensures Valid()
      ensures index !in old(riddleCollection) ==>
        result == ConfigLoadException && riddleCollection == old(riddleCollection)
      ensures index in old(riddleCollection) ==>
        && index in riddleCollection
        && riddleCollection == old(riddleCollection)[index := riddleCollection[index]]
        && fresh(riddleCollection[index])
        && riddleCollection[index].Data() == PayloadData(payload)
        && riddleCollection[index].attempts == 0
        && Contents() == old(Contents()).(riddles := old(Contents()).riddles[index := PayloadData(payload)])
        && result == Ok(BuildDocument(Contents()))
      ensures incorrectResponses == old(incorrectResponses) && correctResponses == old(correctResponses)
      ensures completionMessage == old(completionMessage) && completionImageName == old(completionImageName)
      ensures game == old(game)
    {
      if index !in riddleCollection {
        return ConfigLoadException;
      }
      var r := new Riddle(payload.question.GetOr(""), payload.answer.GetOr([]), payload.hint.GetOr(""),
                          payload.imageName.GetOr(""), correctResponses, incorrectResponses,
                          completionMessage, completionImageName);
      riddleCollection := riddleCollection[index := r];
      assert Contents().riddles == old(Contents()).riddles[index := PayloadData(payload)];
      var written := SaveConfig();
      result := Ok(written);
    }

    /** Removes the riddle at `index`, re-packs the keys to 0..n-2 in the
        old order and saves; an absent index raises and changes nothing. */
    method DeleteRiddle(index: int) returns (result: Result<Document>)
      requires Valid()
      modifies this
      ensures Valid()
      ensures index !in old(riddleCollection) ==>
        result == ConfigLoadException && riddleCollection == old(riddleCollection)
      ensures index in old(riddleCollection) ==>
        && 0 <= index < |old(riddleCollection)|
        && Ordered(riddleCollection) == old(Ordered(riddleCollection))[..index] + old(Ordered(riddleCollection))[index + 1..]
        && Elements(riddleCollection) <= old(Elements(riddleCollection))
        && result == Ok(BuildDocument(Contents()))
      ensures incorrectResponses == old(incorrectResponses) && correctResponses == old(correctResponses)
      ensures completionMessage == old(completionMessage) && completionImageName == old(completionImageName)
      ensures game == old(game)
    {
      if index !in riddleCollection {
        return ConfigLoadException;
      }
      ghost var before := riddleCollection;
      var repacked := RemoveAndRepack(riddleCollection, index);
      RepackedOrder(riddleCollection, index, repacked);
      riddleCollection := repacked;
      var written := SaveConfig();
      result := Ok(written);
    }
  }

  // ---------------------------------------------------------------------
  // Properties of the store
  // ---------------------------------------------------------------------

  /** Adding a riddle and deleting it again restores the dictionary. */
  lemma AddThenDeleteRestores(m: map<int, Riddle>, r: Riddle, after: map<int, Riddle>)
    requires Contiguous(m) && Contiguous(after)
    requires Ordered(after) == (Ordered(m) + [r])[..|m|] + (Ordered(m) + [r])[|m| + 1..]
    ensures after == m
  {
    assert Ordered(after) == Ordered(m);
    OrderedInjective(after, m);
  }

  /** `add_riddle` followed by `delete_riddle` of the new last index puts
      back the dictionary and everything a save writes. */
  method AddThenDelete(loader: ConfigLoader, payload: RiddleEntry)
    requires loader.Valid()
    modifies loader
    ensures loader.Valid()
    ensures loader.riddleCollection == old(loader.riddleCollection)
    ensures loader.Contents() == old(loader.Contents())
    ensures loader.game == old(loader.game)
  {
    var m := loader.riddleCollection;
    var added := loader.AddRiddle(payload);
    ghost var r := loader.riddleCollection[|m|];
    var result := loader.DeleteRiddle(|m|);
    AddThenDeleteRestores(m, r, loader.riddleCollection);
  }

  /** The game name and the configuration file name agree when the file's
      base name has a single '.', not in front. */
  lemma FileNamesAgree(loader: ConfigLoader, d: nat)
    requires var b := Basename(loader.pathToJsonConfig);
      0 < d < |b| && forall j :: 0 <= j < |b| ==> (b[j] == '.' <==> j == d)
    ensures FileBase(loader.pathToJsonConfig) == loader.GetConfigFileName()
  {
    SingleDotRoot(Basename(loader.pathToJsonConfig), d);
  }

  /** With one '.' at position d > 0, both names are the text before it. */
  lemma SingleDotRoot(b: string, d: nat)
    requires 0 < d < |b|
    requires forall j :: 0 <= j < |b| ==> (b[j] == '.' <==> j == d)
    ensures SplitextRoot(b) == b[..d]
    ensures Split(b, '.')[0] == b[..d]
  {
    assert b[d] == '.';
    var i := RFind(b, '.');
    assert i == d;
    assert b[0] != '.';
    SplitFirstPiece(b, '.');
    var p := Split(b, '.')[0];
    assert |p| <= d;
    assert |p| < |b|;
    assert b[|p|] == '.';
  }
}
