/**
 * Section-level validation and dispatch of a parsed `config.toml` document
 * into a `Config` record (vak's `config.parse.from_toml`).
 *
 * The per-section parsers, the section and option validators and the default
 * instances of the two mandatory attributes live in modules that are not part
 * of this model; they are passed in as a `Collaborators` value, so every
 * property below holds whatever those functions do.
 */
module ConfigParse {
  import opened Wrappers

  /** The seven sections that have an entry in SECTION_PARSERS. */
  datatype Section = SpectParams | DataLoader | Prep | Eval | Train | Learncurve | Predict

  /** The keys of SECTION_PARSERS, in the order of the table. */
  const SectionParsers: seq<Section> := [SpectParams, DataLoader, Prep, Eval, Train, Learncurve, Predict]

  /** The name of a section as a table of the TOML document. */
  function Name(s: Section): string {
    match s
    case SpectParams => "SPECT_PARAMS"
    case DataLoader => "DATALOADER"
    case Prep => "PREP"
    case Eval => "EVAL"
    case Train => "TRAIN"
    case Learncurve => "LEARNCURVE"
    case Predict => "PREDICT"
  }

  /** The attribute of `Config` that represents a section. */
  function AttrName(s: Section): string {
    match s
    case SpectParams => "spect_params"
    case DataLoader => "dataloader"
    case Prep => "prep"
    case Eval => "eval"
    case Train => "train"
    case Learncurve => "learncurve"
    case Predict => "predict"
  }

  /** The keyword arguments `Config` accepts. */
  const AttrNames: set<string> :=
    {"spect_params", "dataloader", "prep", "eval", "train", "learncurve", "predict"}

  /** `str.lower` on the ASCII letters that section names are made of. */
  function LowerChar(ch: char): char {
    if 'A' <= ch <= 'Z' then (ch as int + 32) as char else ch
  }

  function Lower(s: string): (r: string)
    ensures |r| == |s|
    ensures forall i | 0 <= i < |s| :: !('A' <= s[i] <= 'Z') ==> r[i] == s[i]
  {
    seq(|s|, i requires 0 <= i < |s| => LowerChar(s[i]))
  }

  /** A parsed TOML document: section name to option name to value. */
  type Toml<V> = map<string, map<string, V>>

  /**
   * The code `from_toml` calls but that is not part of this model:
   * `are_sections_valid`, `are_options_valid`, the parser that
   * SECTION_PARSERS maps each section to (None when it raises), and the
   * default instances `SpectParamsConfig()` and `DataLoaderConfig()`.
   * `from_toml` discards what the two validators return: they either pass or
   * raise, so `sectionsValid` and `optionsValid` are true when the validator
   * returns and false when it raises.
   */
  datatype Collaborators<!V, S> = Collaborators(
    sectionsValid: Toml<V> -> bool,
    optionsValid: (Toml<V>, string) -> bool,
    parse: (Section, Toml<V>) -> Option<S>,
    spectParamsDefault: S,
    dataloaderDefault: S)

  /** The `Config` record; an unset optional attribute is None. */
  datatype Config<S> = Config(
    spectParams: S,
    dataloader: S,
    prep: Option<S>,
    train: Option<S>,
    eval: Option<S>,
    predict: Option<S>,
    learncurve: Option<S>)

  datatype ConfigError =
    | InvalidSections                 // raised by are_sections_valid
    | TrainWithLearncurve             // ValueError: both TRAIN and LEARNCURVE
    | TestSetDurationWithTrain        // ValueError: TRAIN with PREP.test_set_duration
    | InvalidOptions(section: Section) // raised by are_options_valid
    | ParseFailed(section: Section)    // raised by the section's parser

  datatype Result<T> = Ok(value: T) | Err(error: ConfigError)

  /** A call `from_toml` makes to a collaborator, in the order it makes them. */
  datatype Call = ValidateSections | ValidateOptions(section: Section) | ParseSection(section: Section)

  /** What a call of `from_toml` returns or raises, with the calls it made. */
  datatype Outcome<S> = Outcome(result: Result<Config<S>>, calls: seq<Call>)

  /** The state of the selection loop: `config_dict`, the calls so far, and the error raised, if any. */
  datatype LoopState<S> = LoopState(dict: map<string, S>, calls: seq<Call>, failure: Option<ConfigError>)

  function Get<S>(dict: map<string, S>, key: string): Option<S> {
    if key in dict then Some(dict[key]) else None
  }

  /** `Config(**config_dict)`: attributes missing from the dictionary take their defaults. */
  function MakeConfig<V, S>(dict: map<string, S>, c: Collaborators<V, S>): Config<S> {
    Config(
      if "spect_params" in dict then dict["spect_params"] else c.spectParamsDefault,
      if "dataloader" in dict then dict["dataloader"] else c.dataloaderDefault,
      Get(dict, "prep"),
      Get(dict, "train"),
      Get(dict, "eval"),
      Get(dict, "predict"),
      Get(dict, "learncurve"))
  }

  /** The attribute of `cfg` that represents `s`; the two mandatory ones are always present. */
  function Attr<S>(cfg: Config<S>, s: Section): Option<S> {
    match s
    case SpectParams => Some(cfg.spectParams)
    case DataLoader => Some(cfg.dataloader)
    case Prep => cfg.prep
    case Eval => cfg.eval
    case Train => cfg.train
    case Learncurve => cfg.learncurve
    case Predict => cfg.predict
  }

  /** The default the `Config` class declares for the attribute of `s`. */
  function DefaultAttr<V, S>(c: Collaborators<V, S>, s: Section): Option<S> {
    match s
    case SpectParams => Some(c.spectParamsDefault)
    case DataLoader => Some(c.dataloaderDefault)
    case _ => None
  }

  /** The two cross-section consistency checks, in the order `from_toml` makes them. */
  function CrossSectionError<V>(toml: Toml<V>): (r: Option<ConfigError>)
    ensures r == Some(TrainWithLearncurve) <==> "TRAIN" in toml && "LEARNCURVE" in toml
    ensures r == Some(TestSetDurationWithTrain) <==>
      "TRAIN" in toml && "LEARNCURVE" !in toml && "PREP" in toml && "test_set_duration" in toml["PREP"]
    ensures r.None? <==> "TRAIN" !in toml || ("LEARNCURVE" !in toml && !("PREP" in toml && "test_set_duration" in toml["PREP"]))
  {
    if "TRAIN" in toml && "LEARNCURVE" in toml then Some(TrainWithLearncurve)
    else if "TRAIN" in toml && "PREP" in toml && "test_set_duration" in toml["PREP"] then Some(TestSetDurationWithTrain)
    else None
  }

  /** The sections the loop walks through: all of SECTION_PARSERS when none are requested. */
  function Candidates(sections: Option<seq<Section>>): seq<Section> {
    match sections
    case None => SectionParsers
    case Some(names) => names
  }

  /** A section is parsed when it is requested and the document has it. */
  predicate Selected<V>(toml: Toml<V>, candidates: seq<Section>, s: Section) {
    s in candidates && Name(s) in toml
  }

  /** One iteration of the selection loop. */
  function Step<V, S>(toml: Toml<V>, c: Collaborators<V, S>, st: LoopState<S>, s: Section): LoopState<S> {
    if Name(s) !in toml then st
    else if !c.optionsValid(toml, Name(s)) then
      LoopState(st.dict, st.calls + [ValidateOptions(s)], Some(InvalidOptions(s)))
    else match c.parse(s, toml)
      case None => LoopState(st.dict, st.calls + [ValidateOptions(s)] + [ParseSection(s)], Some(ParseFailed(s)))
      case Some(p) => LoopState(st.dict[Lower(Name(s)) := p], st.calls + [ValidateOptions(s)] + [ParseSection(s)], None)
  }

  /** The rest of the selection loop from state `st`; a raised error ends it. */
  function Run<V, S>(toml: Toml<V>, c: Collaborators<V, S>, st: LoopState<S>, todo: seq<Section>): LoopState<S>
    decreases |todo|
  {
    if todo == [] || st.failure.Some? then st
    else Run(toml, c, Step(toml, c, st, todo[0]), todo[1..])
  }

  /** The state before the loop: an empty dictionary, after the call to are_sections_valid. */
  function Start<S>(): LoopState<S> {
    LoopState(map[], [ValidateSections], None)
  }

  /** The specification of `from_toml`. */
  function FromTomlOutcome<V, S>(toml: Toml<V>, sections: Option<seq<Section>>, c: Collaborators<V, S>): Outcome<S> {
    if !c.sectionsValid(toml) then Outcome(Err(InvalidSections), [ValidateSections])
    else if CrossSectionError(toml).Some? then Outcome(Err(CrossSectionError(toml).value), [ValidateSections])
    else
      var st := Run(toml, c, Start(), Candidates(sections));
      Outcome(if st.failure.Some? then Err(st.failure.value) else Ok(MakeConfig(st.dict, c)), st.calls)
  }

  /** The loop from position `i` is one step followed by the loop from `i + 1`. */
  lemma RunAdvance<V, S>(toml: Toml<V>, c: Collaborators<V, S>, st: LoopState<S>, todo: seq<Section>, i: nat)
    requires st.failure.None? && i < |todo|
    ensures Run(toml, c, st, todo[i..]) == Run(toml, c, Step(toml, c, st, todo[i]), todo[i + 1..])
  {
    assert todo[i..][0] == todo[i] && todo[i..][1..] == todo[i + 1..];
  }

  /** A raised error ends the loop. */
  lemma RunStops<V, S>(toml: Toml<V>, c: Collaborators<V, S>, st: LoopState<S>, todo: seq<Section>)
    requires st.failure.Some?
    ensures Run(toml, c, st, todo) == st
  {
  }

  /** `from_toml(config_toml, toml_path, sections)`; the path only decorates error messages and is dropped. */
  method FromToml<V, S>(toml: Toml<V>, sections: Option<seq<Section>>, c: Collaborators<V, S>)
    returns (result: Result<Config<S>>, calls: seq<Call>)
    ensures Outcome(result, calls) == FromTomlOutcome(toml, sections, c)
  {
    calls := [ValidateSections];
    if !c.sectionsValid(toml) {
      return Err(InvalidSections), calls;
    }
    if "TRAIN" in toml {
      if "LEARNCURVE" in toml {
        return Err(TrainWithLearncurve), calls;
      }
      if "PREP" in toml {
        if "test_set_duration" in toml["PREP"] {
          return Err(TestSetDurationWithTrain), calls;
        }
      }
    }

    assert CrossSectionError(toml).None?;
    var configDict: map<string, S> := map[];
    var names := if sections.None? then SectionParsers else sections.value;
    assert names == Candidates(sections);
    ghost var final := Run(toml, c, Start(), names);
    var i := 0;
    while i < |names|
      invariant 0 <= i <= |names|
      invariant Run(toml, c, LoopState(configDict, calls, None), names[i..]) == final
    {
      var name := names[i];
      ghost var after := Step(toml, c, LoopState(configDict, calls, None), name);
      RunAdvance(toml, c, LoopState(configDict, calls, None), names, i);
      if Name(name) in toml {
        calls := calls + [ValidateOptions(name)];
        if !c.optionsValid(toml, Name(name)) {
          assert after == LoopState(configDict, calls, Some(InvalidOptions(name)));
          RunStops(toml, c, after, names[i + 1..]);
          return Err(InvalidOptions(name)), calls;
        }
        calls := calls + [ParseSection(name)];
        var parsed := c.parse(name, toml);
        if parsed.None? {
          assert after == LoopState(configDict, calls, Some(ParseFailed(name)));
          RunStops(toml, c, after, names[i + 1..]);
          return Err(ParseFailed(name)), calls;
        }
        configDict := configDict[Lower(Name(name)) := parsed.value];
      }
      assert after == LoopState(configDict, calls, None);
      i := i + 1;
    }
    assert names[i..] == [];
    result := Ok(MakeConfig(configDict, c));
  }

  /* ---------------------------------------------------------------------- */
  /* Properties                                                              */
  /* ---------------------------------------------------------------------- */

  /** Lower-casing a table key gives the name of the `Config` attribute for that section. */
  lemma LowerNameIsAttrName(s: Section)
    ensures Lower(Name(s)) == AttrName(s) && AttrName(s) in AttrNames
  {
  }

  /** Different sections are stored under different attributes. */
  lemma AttrNameInjective(s: Section, t: Section)
    ensures AttrName(s) == AttrName(t) <==> s == t
  {
  }

  /** With no `sections` argument every key of SECTION_PARSERS is a candidate, exactly once, in table order. */
  lemma DefaultCandidatesAreTable()
    ensures Candidates(None) == [SpectParams, DataLoader, Prep, Eval, Train, Learncurve, Predict]
    ensures forall s: Section :: s in Candidates(None)
    ensures forall i, j :: 0 <= i < j < |Candidates(None)| ==> Candidates(None)[i] != Candidates(None)[j]
  {
    forall s: Section ensures s in Candidates(None) {
      match s
      case SpectParams => assert Candidates(None)[0] == s;
      case DataLoader => assert Candidates(None)[1] == s;
      case Prep => assert Candidates(None)[2] == s;
      case Eval => assert Candidates(None)[3] == s;
      case Train => assert Candidates(None)[4] == s;
      case Learncurve => assert Candidates(None)[5] == s;
      case Predict => assert Candidates(None)[6] == s;
    }
  }

  /** A configuration with no parsed section holds the defaults the `Config` class declares. */
  lemma EmptyConfigIsDefault<V, S>(c: Collaborators<V, S>)
    ensures forall s :: Attr(MakeConfig(map[], c), s) == DefaultAttr(c, s)
    ensures MakeConfig(map[], c).prep.None? && MakeConfig(map[], c).learncurve.None?
  {
  }

  /** The dictionary after parsing the sections of `done` that the document has. */
  ghost predicate DictMatches<V, S>(toml: Toml<V>, c: Collaborators<V, S>, dict: map<string, S>, done: seq<Section>) {
    && dict.Keys <= AttrNames
    && forall s: Section ::
         && (AttrName(s) in dict <==> Selected(toml, done, s))
         && (AttrName(s) in dict ==> c.parse(s, toml) == Some(dict[AttrName(s)]))
  }

  /** Every ParseSection call comes straight after the ValidateOptions call for the same section. */
  predicate ParsesFollowValidation(calls: seq<Call>) {
    forall i :: 0 <= i < |calls| && calls[i].ParseSection? ==> i > 0 && calls[i - 1] == ValidateOptions(calls[i].section)
  }

  /** Every section that was parsed passed its option check: a parser only runs after are_options_valid returned. */
  predicate ParsesPassedValidation<V, S>(toml: Toml<V>, c: Collaborators<V, S>, calls: seq<Call>) {
    forall i :: 0 <= i < |calls| && calls[i].ParseSection? ==> c.optionsValid(toml, Name(calls[i].section))
  }

  /** What a raised loop error says: the section it names, why it failed, and that its failing call was the last one made. */
  predicate ExplainsFailure<V, S>(toml: Toml<V>, c: Collaborators<V, S>, todo: seq<Section>, e: ConfigError, calls: seq<Call>) {
    && (e.InvalidOptions? || e.ParseFailed?)
    && Selected(toml, todo, e.section)
    && |calls| > 0
    && (e.InvalidOptions? ==>
          !c.optionsValid(toml, Name(e.section)) && calls[|calls| - 1] == ValidateOptions(e.section))
    && (e.ParseFailed? ==>
          c.optionsValid(toml, Name(e.section)) && c.parse(e.section, toml).None?
          && calls[|calls| - 1] == ParseSection(e.section))
  }

  /** The loop fills exactly the selected sections, each with its parser's value. */
  lemma {:induction false} RunFillsSelected<V, S>(toml: Toml<V>, c: Collaborators<V, S>, st: LoopState<S>, done: seq<Section>, todo: seq<Section>)
    requires st.failure.None? && DictMatches(toml, c, st.dict, done)
    requires Run(toml, c, st, todo).failure.None?
    ensures DictMatches(toml, c, Run(toml, c, st, todo).dict, done + todo)
    decreases |todo|
  {
    if todo == [] {
      assert done + todo == done;
    } else {
      var s := todo[0];
      var next := Step(toml, c, st, s);
      LowerNameIsAttrName(s);
      assert next.failure.None?;
      assert DictMatches(toml, c, next.dict, done + [s]) by {
        forall t: Section
          ensures AttrName(t) in next.dict <==> Selected(toml, done + [s], t)
          ensures AttrName(t) in next.dict ==> c.parse(t, toml) == Some(next.dict[AttrName(t)])
        {
          AttrNameInjective(s, t);
        }
      }
      RunFillsSelected(toml, c, next, done + [s], todo[1..]);
      assert done + [s] + todo[1..] == done + todo;
    }
  }

  /**
   * The loop ends without an error iff every selected section passes validation
   * and parses; a raised error names a selected section and its cause, and the
   * call that raised it is the last call made.
   */
  lemma {:induction false} RunSucceedsIff<V, S>(toml: Toml<V>, c: Collaborators<V, S>, st: LoopState<S>, todo: seq<Section>)
    requires st.failure.None?
    ensures Run(toml, c, st, todo).failure.None? <==>
      forall s :: Selected(toml, todo, s) ==> c.optionsValid(toml, Name(s)) && c.parse(s, toml).Some?
    ensures Run(toml, c, st, todo).failure.Some? ==>
      ExplainsFailure(toml, c, todo, Run(toml, c, st, todo).failure.value, Run(toml, c, st, todo).calls)
    decreases |todo|
  {
    if todo != [] {
      var next := Step(toml, c, st, todo[0]);
      if next.failure.None? {
        RunSucceedsIff(toml, c, next, todo[1..]);
        assert forall s :: s in todo <==> s == todo[0] || s in todo[1..];
      } else {
        RunStops(toml, c, next, todo[1..]);
        assert todo[0] in todo;
      }
    }
  }

  /**
   * The loop only appends to the call trace, keeps parses right after their
   * validations, and only parses sections whose validation passed.
   */
  lemma {:induction false} RunKeepsCallOrder<V, S>(toml: Toml<V>, c: Collaborators<V, S>, st: LoopState<S>, todo: seq<Section>)
    requires ParsesFollowValidation(st.calls) && ParsesPassedValidation(toml, c, st.calls)
    ensures st.calls <= Run(toml, c, st, todo).calls
    ensures ParsesFollowValidation(Run(toml, c, st, todo).calls)
    ensures ParsesPassedValidation(toml, c, Run(toml, c, st, todo).calls)
    decreases |todo|
  {
    if todo != [] && st.failure.None? {
      var next := Step(toml, c, st, todo[0]);
      var calls := next.calls;
      assert ParsesFollowValidation(calls) && ParsesPassedValidation(toml, c, calls) by {
        forall i | 0 <= i < |calls| && calls[i].ParseSection?
          ensures i > 0 && calls[i - 1] == ValidateOptions(calls[i].section)
          ensures c.optionsValid(toml, Name(calls[i].section))
        {
          if i < |st.calls| {
            assert calls[i] == st.calls[i];
            assert calls[i - 1] == st.calls[i - 1];
          }
        }
      }
      RunKeepsCallOrder(toml, c, next, todo[1..]);
    }
  }

  /** Both TRAIN and LEARNCURVE: `from_toml` raises, whatever sections were requested, and parses nothing. */
  lemma TrainWithLearncurveRejected<V, S>(toml: Toml<V>, sections: Option<seq<Section>>, c: Collaborators<V, S>)
    requires "TRAIN" in toml && "LEARNCURVE" in toml
    ensures FromTomlOutcome(toml, sections, c).result.Err?
    ensures c.sectionsValid(toml) ==> FromTomlOutcome(toml, sections, c).result.error == TrainWithLearncurve
    ensures FromTomlOutcome(toml, sections, c).calls == [ValidateSections]
  {
  }

  /** TRAIN together with PREP.test_set_duration: `from_toml` raises, whatever sections were requested, and parses nothing. */
  lemma TestSetDurationRejected<V, S>(toml: Toml<V>, sections: Option<seq<Section>>, c: Collaborators<V, S>)
    requires "TRAIN" in toml && "PREP" in toml && "test_set_duration" in toml["PREP"]
    ensures FromTomlOutcome(toml, sections, c).result.Err?
    ensures c.sectionsValid(toml) && "LEARNCURVE" !in toml ==>
      FromTomlOutcome(toml, sections, c).result.error == TestSetDurationWithTrain
    ensures FromTomlOutcome(toml, sections, c).calls == [ValidateSections]
  {
  }

  /** `from_toml` returns a `Config` iff every check it makes passes and every selected parser succeeds. */
  lemma FromTomlSucceedsIff<V, S>(toml: Toml<V>, sections: Option<seq<Section>>, c: Collaborators<V, S>)
    ensures FromTomlOutcome(toml, sections, c).result.Ok? <==>
      && c.sectionsValid(toml)
      && !("TRAIN" in toml && "LEARNCURVE" in toml)
      && !("TRAIN" in toml && "PREP" in toml && "test_set_duration" in toml["PREP"])
      && forall s :: Selected(toml, Candidates(sections), s) ==> c.optionsValid(toml, Name(s)) && c.parse(s, toml).Some?
  {
    if c.sectionsValid(toml) && CrossSectionError(toml).None? {
      RunSucceedsIff(toml, c, Start(), Candidates(sections));
    }
  }

  /** Each attribute of `Config(**dict)` is the dictionary's entry for it, or the class default. */
  lemma MakeConfigAttr<V, S>(dict: map<string, S>, c: Collaborators<V, S>, s: Section)
    ensures Attr(MakeConfig(dict, c), s) ==
            if AttrName(s) in dict then Some(dict[AttrName(s)]) else DefaultAttr(c, s)
  {
  }

  /**
   * A returned `Config` holds, for each section, its parser's value when the
   * section is requested and present, and the class default otherwise.
   */
  lemma FromTomlFillsSelected<V, S>(toml: Toml<V>, sections: Option<seq<Section>>, c: Collaborators<V, S>)
    requires FromTomlOutcome(toml, sections, c).result.Ok?
    ensures forall s ::
              Attr(FromTomlOutcome(toml, sections, c).result.value, s) ==
              if Selected(toml, Candidates(sections), s) then c.parse(s, toml) else DefaultAttr(c, s)
  {
    var todo := Candidates(sections);
    var st := Run(toml, c, Start(), todo);
    RunFillsSelected(toml, c, Start(), [], todo);
    assert [] + todo == todo;
    assert DictMatches(toml, c, st.dict, todo);
    var cfg := MakeConfig(st.dict, c);
    assert FromTomlOutcome(toml, sections, c).result.value == cfg;
    forall s
      ensures Attr(cfg, s) == if Selected(toml, todo, s) then c.parse(s, toml) else DefaultAttr(c, s)
    {
      MakeConfigAttr(st.dict, c, s);
    }
  }

  /**
   * are_sections_valid is called first; every parser call comes straight after
   * the are_options_valid call for the same section.
   */
  lemma FromTomlCallOrder<V, S>(toml: Toml<V>, sections: Option<seq<Section>>, c: Collaborators<V, S>)
    ensures |FromTomlOutcome(toml, sections, c).calls| > 0
    ensures FromTomlOutcome(toml, sections, c).calls[0] == ValidateSections
    ensures ParsesFollowValidation(FromTomlOutcome(toml, sections, c).calls)
    ensures ParsesPassedValidation(toml, c, FromTomlOutcome(toml, sections, c).calls)
  {
    RunKeepsCallOrder(toml, c, Start(), Candidates(sections));
  }

  /**
   * Why `from_toml` raised: each error is raised exactly by its check, and a
   * raise inside the loop names a requested, present section, says which of
   * its two calls failed, and is the last collaborator call made.
   */
  lemma FromTomlErrorCause<V, S>(toml: Toml<V>, sections: Option<seq<Section>>, c: Collaborators<V, S>)
    ensures FromTomlOutcome(toml, sections, c).result == Err(InvalidSections) <==> !c.sectionsValid(toml)
    ensures FromTomlOutcome(toml, sections, c).result.Err? &&
            FromTomlOutcome(toml, sections, c).result.error in {TrainWithLearncurve, TestSetDurationWithTrain} <==>
            c.sectionsValid(toml) && CrossSectionError(toml).Some?
    ensures FromTomlOutcome(toml, sections, c).result.Err? ==>
      var e := FromTomlOutcome(toml, sections, c).result.error;
      e.InvalidOptions? || e.ParseFailed? ==>
        ExplainsFailure(toml, c, Candidates(sections), e, FromTomlOutcome(toml, sections, c).calls)
  {
    if c.sectionsValid(toml) && CrossSectionError(toml).None? {
      RunSucceedsIff(toml, c, Start(), Candidates(sections));
    }
  }
}
