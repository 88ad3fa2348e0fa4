/**
 * The structural checks `validate_sigma_file` applies to one parsed Sigma rule
 * (`tools/lint_sigma.py`). The input is the value the YAML loader returned, or
 * the loader's failure; the outcome is acceptance, the first failing check's
 * error, or the `TypeError` Python raises when `in` meets a scalar.
 */
module Sigma {
  import opened Wrappers

  /** A mapping key: a string, or any other scalar key, which no check ever looks up. */
  datatype Key = Text(s: string) | NonText(id: int)

  /**
   * A loaded YAML value. `Scalar` stands for every other scalar the loader can
   * produce (floats, timestamps, binary), with its truth value.
   */
  datatype Yaml =
    | Null
    | Bool(b: bool)
    | Int(i: int)
    | Str(s: string)
    | List(items: seq<Yaml>)
    | Mapping(m: map<Key, Yaml>)
    | Scalar(truthy: bool)

  /** What `yaml.safe_load` gave: a value, or a `YAMLError`. */
  datatype Loaded = Doc(v: Yaml) | YamlError

  /** The `ValidationError`s, in source order; `idx` is the 0-based sequence stage. */
  datatype Problem =
    | ParseError
    | NotMapping
    | MissingKeys(keys: seq<string>)
    | UnsupportedType
    | SequenceNotList
    | StageNotMapping(idx: nat)
    | StageMissingLogsource(idx: nat)
    | StageMissingDetection(idx: nat)
    | StageMissingCondition(idx: nat)
    | MissingLogsource
    | MissingDetection
    | DetectionWithoutCondition
    | MissingTags

  /** Accepted, rejected with a `ValidationError`, or aborted by a `TypeError`. */
  datatype Verdict = Accepted | Rejected(problem: Problem) | Raised

  /** The keys every rule needs, in sorted order. */
  const Required: seq<string> := ["id", "level", "status", "title"]

  // ---------------------------------------------------------------------------
  // Python semantics the checks rely on.

  /** Python's `<` on strings: lexicographic by code point. */
  predicate Before(a: string, b: string)
    decreases |a|
  {
    if a == [] then b != []
    else if b == [] then false
    else if a[0] != b[0] then a[0] < b[0]
    else Before(a[1..], b[1..])
  }

  predicate StrictlySorted(s: seq<string>)
  {
    forall i, j :: 0 <= i < j < |s| ==> Before(s[i], s[j])
  }

  /** `needle in hay` for two strings: a substring test. */
  predicate Occurs(needle: string, hay: string)
    decreases |hay|
  {
    |needle| <= |hay| && (hay[..|needle|] == needle || Occurs(needle, hay[1..]))
  }

  /**
   * `key in container`: a key of a mapping, an element of a list, a substring of
   * a string; `None` where Python raises `TypeError` (null, booleans, numbers
   * and other scalars are not containers).
   */
  function In(key: string, container: Yaml): (r: Option<bool>)
    ensures r.None? <==> !(container.Mapping? || container.List? || container.Str?)
  {
    match container
    case Mapping(m) => Some(Text(key) in m)
    case List(items) => Some(Str(key) in items)
    case Str(s) => Some(Occurs(key, s))
    case _ => None
  }

  /** Python truthiness of a loaded value. */
  predicate Truthy(v: Yaml)
  {
    match v
    case Null => false
    case Bool(b) => b
    case Int(i) => i != 0
    case Str(s) => s != []
    case List(items) => items != []
    case Mapping(m) => m != map[]
    case Scalar(t) => t
  }

  // ---------------------------------------------------------------------------
  // The checks.

  /** `sorted(required_keys - data.keys())`: the required keys the mapping lacks, in order. */
  function Missing(m: map<Key, Yaml>): seq<string>
  {
    MissingFrom(Required, m)
  }

  function MissingFrom(keys: seq<string>, m: map<Key, Yaml>): (r: seq<string>)
    ensures |r| <= |keys|
  {
    if keys == [] then []
    else (if Text(keys[0]) in m then [] else [keys[0]]) + MissingFrom(keys[1..], m)
  }

  /** The loop body over `data["sequence"]` for stage `idx`. */
  function StageVerdict(stage: Yaml, idx: nat): Verdict
  {
    if !stage.Mapping? then Rejected(StageNotMapping(idx))
    else if Text("logsource") !in stage.m then Rejected(StageMissingLogsource(idx))
    else if Text("detection") !in stage.m then Rejected(StageMissingDetection(idx))
    else match In("condition", stage.m[Text("detection")])
      case None => Raised
      case Some(found) => if found then Accepted else Rejected(StageMissingCondition(idx))
  }

  /** The errors the stage loop can report. */
  predicate StageProblem(p: Problem)
  {
    p.StageNotMapping? || p.StageMissingLogsource? || p.StageMissingDetection? || p.StageMissingCondition?
  }

  /** The `for idx, stage in enumerate(...)` loop from stage `idx` on: the first stage that fails decides. */
  function StagesFrom(stages: seq<Yaml>, idx: nat): (r: Verdict)
    requires idx <= |stages|
    ensures r.Rejected? ==> StageProblem(r.problem)
    decreases |stages| - idx
  {
    if idx == |stages| then Accepted
    else
      var v := StageVerdict(stages[idx], idx);
      if v != Accepted then v else StagesFrom(stages, idx + 1)
  }

  /** The checks after the required keys, in source order; `Accepted` when all pass. */
  function CheckBody(m: map<Key, Yaml>): Verdict
  {
    if Text("type") in m && m[Text("type")] != Str("sequence") then Rejected(UnsupportedType)
    else
      var shape :=
        if Text("sequence") in m then
          var sq := m[Text("sequence")];
          if !sq.List? || sq.items == [] then Rejected(SequenceNotList)
          else StagesFrom(sq.items, 0)
        else if Text("logsource") !in m then Rejected(MissingLogsource)
        else if Text("detection") !in m then Rejected(MissingDetection)
        else
          var detection := m[Text("detection")];
          if !detection.Mapping? || Text("condition") !in detection.m then Rejected(DetectionWithoutCondition)
          else Accepted;
      if shape != Accepted then shape
      else if Text("tags") !in m || !Truthy(m[Text("tags")]) then Rejected(MissingTags)
      else Accepted
  }

  /** `validate_sigma_file` on the loader's result. */
  function Validate(input: Loaded): (r: Verdict)
    ensures input.YamlError? ==> r == Rejected(ParseError)
    ensures input.Doc? && !input.v.Mapping? ==> r == Rejected(NotMapping)
  {
    match input
    case YamlError => Rejected(ParseError)
    case Doc(v) =>
      if !v.Mapping? then Rejected(NotMapping)
      else
        var missing := Missing(v.m);
        if missing != [] then Rejected(MissingKeys(missing))
        else CheckBody(v.m)
  }

  // ---------------------------------------------------------------------------
  // A declarative statement of what a valid rule is.

  /** A sequence stage that passes: a mapping with `logsource` and a `detection` containing "condition". */
  predicate GoodStage(stage: Yaml)
  {
    stage.Mapping? && Text("logsource") in stage.m && Text("detection") in stage.m &&
    In("condition", stage.m[Text("detection")]) == Some(true)
  }

  /** All of `title`, `id`, `status` and `level` are keys. */
  predicate HasRequired(m: map<Key, Yaml>)
  {
    forall k :: k in Required ==> Text(k) in m
  }

  /** `type` is absent or is the string "sequence". */
  predicate TypeOk(m: map<Key, Yaml>)
  {
    Text("type") in m ==> m[Text("type")] == Str("sequence")
  }

  /** `sequence` is a non-empty list of good stages. */
  predicate SequenceOk(sq: Yaml)
  {
    sq.List? && sq.items != [] && forall i :: 0 <= i < |sq.items| ==> GoodStage(sq.items[i])
  }

  /** A rule without `sequence` has `logsource` and a `detection` mapping with a `condition` key. */
  predicate DetectionOk(m: map<Key, Yaml>)
  {
    Text("logsource") in m && Text("detection") in m &&
    m[Text("detection")].Mapping? && Text("condition") in m[Text("detection")].m
  }

  /** The rule's detection logic is well formed, as a sequence or as a single detection. */
  predicate ShapeOk(m: map<Key, Yaml>)
  {
    if Text("sequence") in m then SequenceOk(m[Text("sequence")]) else DetectionOk(m)
  }

  /** `tags` is present and truthy. */
  predicate TagsOk(m: map<Key, Yaml>)
  {
    Text("tags") in m && Truthy(m[Text("tags")])
  }

  /** Every condition the checks impose, stated without their order. */
  predicate WellFormed(v: Yaml)
  {
    v.Mapping? && HasRequired(v.m) && TypeOk(v.m) && ShapeOk(v.m) && TagsOk(v.m)
  }

  // ---------------------------------------------------------------------------
  // Properties.

  /** A key is reported missing exactly when it is required and absent. */
  lemma {:induction false} MissingFromExact(keys: seq<string>, m: map<Key, Yaml>)
    ensures forall k :: k in MissingFrom(keys, m) <==> k in keys && Text(k) !in m
  {
    if keys != [] {
      MissingFromExact(keys[1..], m);
      assert forall k :: k in keys <==> k == keys[0] || k in keys[1..];
    }
  }

  /** Keeping some elements of a strictly sorted list keeps it strictly sorted. */
  lemma {:induction false} MissingFromSorted(keys: seq<string>, m: map<Key, Yaml>)
    requires StrictlySorted(keys)
    ensures StrictlySorted(MissingFrom(keys, m))
  {
    if keys != [] {
      assert StrictlySorted(keys[1..]) by {
        forall i, j | 0 <= i < j < |keys[1..]|
          ensures Before(keys[1..][i], keys[1..][j])
        {
          assert keys[1..][i] == keys[i + 1] && keys[1..][j] == keys[j + 1];
        }
      }
      MissingFromSorted(keys[1..], m);
      MissingFromExact(keys[1..], m);
      var tail := MissingFrom(keys[1..], m);
      forall j | 0 <= j < |tail|
        ensures Before(keys[0], tail[j])
      {
        assert tail[j] in keys[1..];
        var k :| 1 <= k < |keys| && keys[k] == tail[j];
      }
    }
  }

  /**
   * The missing-keys message lists exactly the required keys the mapping lacks,
   * each once, in sorted order.
   */
  lemma MissingKeysSorted(m: map<Key, Yaml>)
    ensures forall k :: k in Missing(m) <==> k in Required && Text(k) !in m
    ensures StrictlySorted(Missing(m))
  {
    assert StrictlySorted(Required);
    MissingFromExact(Required, m);
    MissingFromSorted(Required, m);
  }

  /** No key is reported missing exactly when every required key is present. */
  lemma MissingEmpty(m: map<Key, Yaml>)
    ensures Missing(m) == [] <==> HasRequired(m)
  {
    MissingKeysSorted(m);
    if Missing(m) != [] {
      assert Missing(m)[0] in Missing(m);
    }
  }

  /** The stage loop passes exactly when every stage from `idx` on is good, and never raises then. */
  lemma {:induction false} StagesAccepted(stages: seq<Yaml>, idx: nat)
    requires idx <= |stages|
    ensures StagesFrom(stages, idx) == Accepted <==> forall i :: idx <= i < |stages| ==> GoodStage(stages[i])
    decreases |stages| - idx
  {
    if idx < |stages| {
      StagesAccepted(stages, idx + 1);
      assert StageVerdict(stages[idx], idx) == Accepted <==> GoodStage(stages[idx]);
    }
  }

  /**
   * First failure wins in the stage loop: a failing loop reports the verdict of
   * the lowest-numbered stage that fails, and every stage before it passes.
   */
  lemma {:induction false} StagesFirstFailure(stages: seq<Yaml>, idx: nat)
    requires idx <= |stages| && StagesFrom(stages, idx) != Accepted
    ensures exists i :: (idx <= i < |stages| &&
      StagesFrom(stages, idx) == StageVerdict(stages[i], i) &&
      (forall j :: idx <= j < i ==> StageVerdict(stages[j], j) == Accepted))
    decreases |stages| - idx
  {
    if StageVerdict(stages[idx], idx) == Accepted {
      StagesFirstFailure(stages, idx + 1);
      var i :| idx + 1 <= i < |stages| &&
        StagesFrom(stages, idx + 1) == StageVerdict(stages[i], i) &&
        (forall j :: idx + 1 <= j < i ==> StageVerdict(stages[j], j) == Accepted);
      assert forall j :: idx <= j < i ==> StageVerdict(stages[j], j) == Accepted;
    } else {
      assert StagesFrom(stages, idx) == StageVerdict(stages[idx], idx);
    }
  }

  /** A rule is accepted exactly when it meets every condition. */
  lemma ValidateAccepts(v: Yaml)
    ensures Validate(Doc(v)) == Accepted <==> WellFormed(v)
  {
    if v.Mapping? {
      MissingEmpty(v.m);
      if Text("sequence") in v.m {
        var sq := v.m[Text("sequence")];
        if sq.List? {
          StagesAccepted(sq.items, 0);
        }
      }
    }
  }

  /** Only a value that is not a mapping is rejected at the top level. */
  lemma NotMappingWhen(v: Yaml)
    ensures Validate(Doc(v)) == Rejected(NotMapping) <==> !v.Mapping?
  {
    if v.Mapping? {
      MissingEmpty(v.m);
      StagesNeverOther(v.m, NotMapping);
    }
  }

  /**
   * `TypeError` escapes exactly when the required keys and `type` pass,
   * `sequence` is a non-empty list, and the stage loop meets a non-container
   * `detection` before any stage fails.
   */
  lemma RaisedWhen(v: Yaml)
    ensures Validate(Doc(v)) == Raised <==>
      v.Mapping? && HasRequired(v.m) && TypeOk(v.m) && Text("sequence") in v.m &&
      v.m[Text("sequence")].List? && v.m[Text("sequence")].items != [] &&
      StagesFrom(v.m[Text("sequence")].items, 0) == Raised
  {
    if v.Mapping? {
      MissingEmpty(v.m);
    }
  }

  /** `type` is checked right after the required keys: any value but "sequence" is rejected. */
  lemma UnsupportedTypeWhen(v: Yaml)
    ensures Validate(Doc(v)) == Rejected(UnsupportedType) <==>
      v.Mapping? && HasRequired(v.m) && !TypeOk(v.m)
  {
    if v.Mapping? {
      MissingEmpty(v.m);
    }
  }

  /** `sequence`, when present and `type` passes, must be a non-empty list. */
  lemma SequenceNotListWhen(v: Yaml)
    ensures Validate(Doc(v)) == Rejected(SequenceNotList) <==>
      v.Mapping? && HasRequired(v.m) && TypeOk(v.m) && Text("sequence") in v.m &&
      (!v.m[Text("sequence")].List? || v.m[Text("sequence")].items == [])
  {
    if v.Mapping? {
      MissingEmpty(v.m);
    }
  }

  /**
   * A stage error is reported exactly when every earlier check passes, the
   * sequence is a non-empty list, and the stage loop fails with that error.
   */
  lemma StageRejectionWhen(v: Yaml, p: Problem)
    requires StageProblem(p)
    ensures Validate(Doc(v)) == Rejected(p) <==>
      v.Mapping? && HasRequired(v.m) && TypeOk(v.m) && Text("sequence") in v.m &&
      v.m[Text("sequence")].List? && v.m[Text("sequence")].items != [] &&
      StagesFrom(v.m[Text("sequence")].items, 0) == Rejected(p)
  {
    if v.Mapping? {
      MissingEmpty(v.m);
    }
  }

  /** Without `sequence`, a missing `logsource` is the next check. */
  lemma MissingLogsourceWhen(v: Yaml)
    ensures Validate(Doc(v)) == Rejected(MissingLogsource) <==>
      v.Mapping? && HasRequired(v.m) && TypeOk(v.m) && Text("sequence") !in v.m &&
      Text("logsource") !in v.m
  {
    if v.Mapping? {
      MissingEmpty(v.m);
      StagesNeverOther(v.m, MissingLogsource);
    }
  }

  /** Without `sequence` and with `logsource`, a missing `detection` is the next check. */
  lemma MissingDetectionWhen(v: Yaml)
    ensures Validate(Doc(v)) == Rejected(MissingDetection) <==>
      v.Mapping? && HasRequired(v.m) && TypeOk(v.m) && Text("sequence") !in v.m &&
      Text("logsource") in v.m && Text("detection") !in v.m
  {
    if v.Mapping? {
      MissingEmpty(v.m);
      StagesNeverOther(v.m, MissingDetection);
    }
  }

  /** Then `detection` must be a mapping with a `condition` key. */
  lemma DetectionWithoutConditionWhen(v: Yaml)
    ensures Validate(Doc(v)) == Rejected(DetectionWithoutCondition) <==>
      v.Mapping? && HasRequired(v.m) && TypeOk(v.m) && Text("sequence") !in v.m &&
      Text("logsource") in v.m && Text("detection") in v.m &&
      !(v.m[Text("detection")].Mapping? && Text("condition") in v.m[Text("detection")].m)
  {
    if v.Mapping? {
      MissingEmpty(v.m);
      StagesNeverOther(v.m, DetectionWithoutCondition);
    }
  }

  /** The stage loop reports only stage errors, so it never produces `p`. */
  lemma StagesNeverOther(m: map<Key, Yaml>, p: Problem)
    requires !StageProblem(p)
    ensures Text("sequence") in m && m[Text("sequence")].List? && m[Text("sequence")].items != [] ==>
      StagesFrom(m[Text("sequence")].items, 0) != Rejected(p)
  {
  }

  /**
   * `TypeError` escapes only from the stage loop: the rule has a non-empty
   * `sequence` list, and some stage has `logsource` and a `detection` that is
   * a scalar or null, with every earlier stage passing.
   */
  lemma ValidateRaises(v: Yaml)
    requires Validate(Doc(v)) == Raised
    ensures v.Mapping? && Text("sequence") in v.m && v.m[Text("sequence")].List?
    ensures var stages := v.m[Text("sequence")].items;
      exists i :: 0 <= i < |stages| && stages[i].Mapping? &&
        Text("logsource") in stages[i].m && Text("detection") in stages[i].m &&
        In("condition", stages[i].m[Text("detection")]).None? &&
        forall j :: 0 <= j < i ==> GoodStage(stages[j])
  {
    var stages := v.m[Text("sequence")].items;
    StagesFirstFailure(stages, 0);
    var i :| 0 <= i < |stages| && StagesFrom(stages, 0) == StageVerdict(stages[i], i) &&
      (forall j :: 0 <= j < i ==> StageVerdict(stages[j], j) == Accepted);
    assert forall j :: 0 <= j < i ==> GoodStage(stages[j]);
  }

  /**
   * The tags check comes last: a rule is rejected for its tags exactly when
   * every earlier check passes and `tags` is absent or falsy.
   */
  lemma TagsCheckedLast(v: Yaml)
    ensures Validate(Doc(v)) == Rejected(MissingTags) <==>
      v.Mapping? && HasRequired(v.m) && TypeOk(v.m) && ShapeOk(v.m) && !TagsOk(v.m)
  {
    if v.Mapping? {
      MissingEmpty(v.m);
      StagesNeverOther(v.m, MissingTags);
      if Text("sequence") in v.m {
        var sq := v.m[Text("sequence")];
        if sq.List? {
          StagesAccepted(sq.items, 0);
        }
      }
    }
  }

  /**
   * A rule missing required keys is rejected with exactly those keys, whatever
   * else is wrong with it, and a rule that has them all is never rejected for them.
   */
  lemma MissingKeysFirst(v: Yaml)
    requires v.Mapping?
    ensures (exists k :: k in Required && Text(k) !in v.m) <==> Validate(Doc(v)).Rejected? && Validate(Doc(v)).problem.MissingKeys?
    ensures Validate(Doc(v)).Rejected? && Validate(Doc(v)).problem.MissingKeys? ==>
      Validate(Doc(v)).problem.keys == Missing(v.m)
  {
    MissingEmpty(v.m);
  }
}
