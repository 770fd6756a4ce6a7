/**
  `TensorforceAgent.experience` (tensorforce/agents/tensorforce.py): feeding
  recorded traces to the model. The call is refused mid-episode; the leading
  length of every internal, every action, the terminals and the rewards must
  equal the number of instances, checked in that order; the action masks are
  popped from the states; boolean terminals become integers; and the arrays are
  cut into batches (AgentBatching), each passed to the model, whose counters the
  agent then takes over.

  A tensor per instance is flattened into a Row. Ordered dictionaries whose order
  decides which error is raised (internals, actions) are sequences of fields;
  the states and auxiliaries, whose order is not observable here, are maps.
*/
module AgentExperience {
  import opened Wrappers
  import opened AgentBatching

  type Row = seq<real>
  type Column = seq<Row>

  /** One entry of an ordered dictionary of arrays. */
  datatype Field = Field(name: string, column: Column)
  type Fields = seq<Field>

  /** The terminal array as given: booleans, or integers (1 terminal, 2 aborted, 0 not terminal). */
  datatype TerminalInput = BoolTerminals(flags: seq<bool>) | IntTerminals(values: seq<int>)

  function TerminalLength(t: TerminalInput): nat {
    match t
    case BoolTerminals(flags) => |flags|
    case IntTerminals(values) => |values|
  }

  /**
    The errors `experience` raises: the mid-episode refusal, a length error naming
    its argument, and the UnboundLocalError of the terminal and reward checks,
    whose messages format the loop variable `name` of the two loops before them:
    when internals and actions are both empty, neither loop has bound it.
  */
  datatype ExperienceError = MidEpisode | LengthMismatch(argument: string, value: nat) | UnboundName

  /** Every entry of an ordered dictionary has leading length n. */
  ghost predicate AllLength(fields: Fields, n: nat) {
    forall i :: 0 <= i < |fields| ==> |fields[i].column| == n
  }

  /** The argument the length error names: `len(internals[name])`, `len(actions[name])`. */
  function LengthArgument(kind: string, name: string): string {
    "len(" + kind + "[" + name + "])"
  }

  /** The error for the first entry, in dictionary order, whose leading length is not n. */
  function FirstMismatch(kind: string, fields: Fields, n: nat): (r: Option<ExperienceError>)
    ensures r.None? <==> AllLength(fields, n)
    ensures r.Some? ==>
              exists i :: 0 <= i < |fields| && |fields[i].column| != n
                && AllLength(fields[..i], n)
                && r.value == LengthMismatch(LengthArgument(kind, fields[i].name), |fields[i].column|)
  {
    if fields == [] then None
    else if |fields[0].column| != n then
      assert AllLength(fields[..0], n);
      Some(LengthMismatch(LengthArgument(kind, fields[0].name), |fields[0].column|))
    else
      var rest := FirstMismatch(kind, fields[1..], n);
      if rest.Some? then
        ghost var j :| 0 <= j < |fields[1..]| && |fields[1..][j].column| != n
                       && AllLength(fields[1..][..j], n)
                       && rest.value == LengthMismatch(LengthArgument(kind, fields[1..][j].name),
                                                       |fields[1..][j].column|);
        assert fields[..j + 1] == [fields[0]] + fields[1..][..j];
        assert AllLength(fields[..j + 1], n);
        rest
      else
        assert fields == [fields[0]] + fields[1..];
        None
  }

  /**
    The length checks: internals first, then actions, then the terminals, then the
    rewards; the first offending field is named. A terminal or reward mismatch
    raises UnboundName instead when there is neither an internal nor an action.
  */
  function CheckLengths(internals: Fields, actions: Fields, terminalLength: nat, rewardLength: nat, n: nat)
    : (r: Outcome<ExperienceError>)
    ensures r.Pass? <==>
              AllLength(internals, n) && AllLength(actions, n) && terminalLength == n && rewardLength == n
    ensures !AllLength(internals, n) ==> r == Fail(FirstMismatch("internals", internals, n).value)
    ensures AllLength(internals, n) && !AllLength(actions, n) ==>
              r == Fail(FirstMismatch("actions", actions, n).value)
    ensures AllLength(internals, n) && AllLength(actions, n) && (terminalLength != n || rewardLength != n) ==>
              (r == Fail(UnboundName) <==> internals == [] && actions == [])
    ensures AllLength(internals, n) && AllLength(actions, n) && terminalLength != n && internals + actions != [] ==>
              r == Fail(LengthMismatch("len(terminal)", terminalLength))
    ensures AllLength(internals, n) && AllLength(actions, n) && terminalLength == n && rewardLength != n
            && internals + actions != [] ==>
              r == Fail(LengthMismatch("len(reward)", rewardLength))
  {
    var internalError := FirstMismatch("internals", internals, n);
    var actionError := FirstMismatch("actions", actions, n);
    var nameBound := internals != [] || actions != [];
    if internalError.Some? then Fail(internalError.value)
    else if actionError.Some? then Fail(actionError.value)
    else if terminalLength != n then
      (if nameBound then Fail(LengthMismatch("len(terminal)", terminalLength)) else Fail(UnboundName))
    else if rewardLength != n then
      (if nameBound then Fail(LengthMismatch("len(reward)", rewardLength)) else Fail(UnboundName))
    else Pass
  }

  /** With neither internals nor actions, a terminal length mismatch is the unbound-name error. */
  lemma UnboundNameExample()
    ensures CheckLengths([], [], 2, 3, 3) == Fail(UnboundName)
    ensures CheckLengths([Field("h", [[0.0], [0.0], [0.0]])], [], 2, 3, 3) == Fail(LengthMismatch("len(terminal)", 2))
  {
  }

  /** Boolean terminals become 1 for True and 0 for False; integer terminals are kept. */
  function ToIntTerminals(t: TerminalInput): (r: seq<int>)
    ensures |r| == TerminalLength(t)
    ensures t.BoolTerminals? ==> forall i :: 0 <= i < |r| ==> (r[i] == 1 <==> t.flags[i]) && (r[i] == 0 <==> !t.flags[i])
    ensures t.IntTerminals? ==> r == t.values
  {
    match t
    case BoolTerminals(flags) => seq(|flags|, i requires 0 <= i < |flags| => if flags[i] then 1 else 0)
    case IntTerminals(values) => values
  }

  /** The specification of an int-valued action relevant to masking. */
  datatype ActionSpec = ActionSpec(name: string, isInt: bool, numValues: Option<nat>, shapeSize: nat)

  /** Actions that get a mask: int actions with a number of values, when masking is enabled. */
  predicate Masked(enabled: bool, spec: ActionSpec) {
    enabled && spec.isInt && spec.numValues.Some?
  }

  /** The all-true default mask: n rows of shape-size times num-values ones. */
  function Ones(n: nat, width: nat): (r: Column)
    ensures |r| == n
    ensures forall i :: 0 <= i < n ==> |r[i]| == width && forall j :: 0 <= j < width ==> r[i][j] == 1.0
  {
    seq(n, i => seq(width, j => 1.0))
  }

  /** The state key a mask is popped from and the auxiliary key it is stored under. */
  function StateMaskKey(spec: ActionSpec): string {
    spec.name + "_mask"
  }

  function AuxMaskKey(spec: ActionSpec): string {
    spec.name + "/mask"
  }

  /** `states.pop(name + '_mask', ones)`: the mask given in the states, or the default. */
  function MaskOf(spec: ActionSpec, states: map<string, Column>, n: nat): (r: Column)
    requires spec.numValues.Some?
    ensures StateMaskKey(spec) in states ==> r == states[StateMaskKey(spec)]
    ensures StateMaskKey(spec) !in states ==>
              |r| == n && forall i :: 0 <= i < n ==>
                |r[i]| == spec.shapeSize * spec.numValues.value && forall j :: 0 <= j < |r[i]| ==> r[i][j] == 1.0
  {
    if StateMaskKey(spec) in states then states[StateMaskKey(spec)]
    else Ones(n, spec.shapeSize * spec.numValues.value)
  }

  /**
    The masks of the actions from `specs` on, collected into `acc`, and the states
    left after popping them: the fmap over the actions specification, in its order.
  */
  function MaskSplit(specs: seq<ActionSpec>, enabled: bool, states: map<string, Column>, n: nat,
                     acc: map<string, Column>): (r: (map<string, Column>, map<string, Column>))
    ensures acc.Keys <= r.0.Keys
    ensures r.1.Keys <= states.Keys
    ensures forall k :: k in r.1 ==> r.1[k] == states[k]
    decreases |specs|
  {
    if specs == [] then (acc, states)
    else if Masked(enabled, specs[0]) then
      MaskSplit(specs[1..], enabled, states - {StateMaskKey(specs[0])}, n,
                acc[AuxMaskKey(specs[0]) := MaskOf(specs[0], states, n)])
    else MaskSplit(specs[1..], enabled, states, n, acc)
  }

  /** The state keys the masks are popped from. */
  function PoppedKeys(specs: seq<ActionSpec>, enabled: bool): set<string>
    decreases |specs|
  {
    if specs == [] then {}
    else (if Masked(enabled, specs[0]) then {StateMaskKey(specs[0])} else {}) + PoppedKeys(specs[1..], enabled)
  }

  /** The auxiliary keys the masks are stored under. */
  function AuxKeys(specs: seq<ActionSpec>, enabled: bool): set<string>
    decreases |specs|
  {
    if specs == [] then {}
    else (if Masked(enabled, specs[0]) then {AuxMaskKey(specs[0])} else {}) + AuxKeys(specs[1..], enabled)
  }

  /** The action names of a specification are those of a dictionary: distinct. */
  ghost predicate DistinctNames(specs: seq<ActionSpec>) {
    forall i, j :: 0 <= i < j < |specs| ==> specs[i].name != specs[j].name
  }

  /** Appending the same suffix keeps different names different. */
  lemma SuffixCancels(a: string, b: string, suffix: string)
    requires a + suffix == b + suffix
    ensures a == b
  {
    assert |a| == |b|;
    assert a == (a + suffix)[..|a|];
    assert b == (b + suffix)[..|b|];
  }

  lemma {:induction false} KeysOfRest(specs: seq<ActionSpec>, enabled: bool, spec: ActionSpec)
    requires forall s :: s in specs ==> s.name != spec.name
    ensures StateMaskKey(spec) !in PoppedKeys(specs, enabled)
    ensures AuxMaskKey(spec) !in AuxKeys(specs, enabled)
    decreases |specs|
  {
    if specs != [] {
      if StateMaskKey(spec) == StateMaskKey(specs[0]) {
        SuffixCancels(spec.name, specs[0].name, "_mask");
      }
      if AuxMaskKey(spec) == AuxMaskKey(specs[0]) {
        SuffixCancels(spec.name, specs[0].name, "/mask");
      }
      assert forall s :: s in specs[1..] ==> s in specs;
      KeysOfRest(specs[1..], enabled, spec);
    }
  }

  lemma DistinctTail(specs: seq<ActionSpec>)
    requires DistinctNames(specs) && specs != []
    ensures DistinctNames(specs[1..])
    ensures forall s :: s in specs[1..] ==> s.name != specs[0].name
  {
    var rest := specs[1..];
    forall i, j | 0 <= i < j < |rest|
      ensures rest[i].name != rest[j].name
    {
      assert rest[i] == specs[i + 1] && rest[j] == specs[j + 1];
    }
    forall s | s in rest
      ensures s.name != specs[0].name
    {
      var j :| 0 <= j < |rest| && rest[j] == s;
      assert specs[j + 1] == s;
    }
  }

  /**
    Popping the masks: each masked action's mask is the one given in the states
    under `<name>_mask`, or the all-true default; it is stored under
    `<name>/mask`; exactly these keys are added, earlier entries are kept, and the
    popped keys leave the states.
  */
  lemma {:induction false} MaskSplitSpec(specs: seq<ActionSpec>, enabled: bool, states: map<string, Column>,
                                         n: nat, acc: map<string, Column>)
    requires DistinctNames(specs)
    ensures var r := MaskSplit(specs, enabled, states, n, acc);
            && r.1 == states - PoppedKeys(specs, enabled)
            && r.0.Keys == acc.Keys + AuxKeys(specs, enabled)
            && (forall k :: k in acc && k !in AuxKeys(specs, enabled) ==> r.0[k] == acc[k])
            && (forall s :: s in specs && Masked(enabled, s) ==>
                  AuxMaskKey(s) in r.0 && r.0[AuxMaskKey(s)] == MaskOf(s, states, n))
    decreases |specs|
  {
    if specs != [] {
      var s0 := specs[0];
      var rest := specs[1..];
      DistinctTail(specs);
      KeysOfRest(rest, enabled, s0);
      if Masked(enabled, s0) {
        var states' := states - {StateMaskKey(s0)};
        var acc' := acc[AuxMaskKey(s0) := MaskOf(s0, states, n)];
        MaskSplitSpec(rest, enabled, states', n, acc');
        forall s | s in rest && Masked(enabled, s)
          ensures MaskOf(s, states', n) == MaskOf(s, states, n)
        {
          if StateMaskKey(s) == StateMaskKey(s0) {
            SuffixCancels(s.name, s0.name, "_mask");
          }
        }
      } else {
        MaskSplitSpec(rest, enabled, states, n, acc);
      }
    }
  }

  /**
    Python slicing `x[lo:hi]`: both bounds are clamped to the length, and an empty
    range gives an empty result.
  */
  function PySlice<T>(s: seq<T>, lo: nat, hi: nat): (r: seq<T>)
    ensures lo <= hi <= |s| ==> r == s[lo..hi]
    ensures lo <= |s| < hi ==> r == s[lo..]
    ensures lo >= hi || lo >= |s| ==> r == []
    ensures |r| <= |s|
  {
    var a := if lo <= |s| then lo else |s|;
    var b := if hi <= |s| then hi else |s|;
    if a <= b then s[a..b] else []
  }

  function SliceFields(fields: Fields, lo: nat, hi: nat): (r: Fields)
    ensures |r| == |fields|
    ensures forall i :: 0 <= i < |r| ==>
              r[i].name == fields[i].name && r[i].column == PySlice(fields[i].column, lo, hi)
  {
    seq(|fields|, i requires 0 <= i < |fields| => Field(fields[i].name, PySlice(fields[i].column, lo, hi)))
  }

  function SliceMap(m: map<string, Column>, lo: nat, hi: nat): (r: map<string, Column>)
    ensures r.Keys == m.Keys
    ensures forall k :: k in r ==> r[k] == PySlice(m[k], lo, hi)
  {
    map k | k in m :: PySlice(m[k], lo, hi)
  }

  /** What one call to the model's experience receives. */
  datatype Trace = Trace(
    states: map<string, Column>, internals: Fields, auxiliaries: map<string, Column>,
    actions: Fields, terminal: seq<int>, reward: seq<real>)

  /** `lambda x: x[last:index]` applied to every part of a trace. */
  function TraceSlice(tr: Trace, lo: nat, hi: nat): (r: Trace)
    ensures r.states.Keys == tr.states.Keys && r.auxiliaries.Keys == tr.auxiliaries.Keys
    ensures |r.internals| == |tr.internals| && |r.actions| == |tr.actions|
    ensures lo <= hi <= |tr.terminal| ==> r.terminal == tr.terminal[lo..hi]
    ensures lo <= hi <= |tr.reward| ==> r.reward == tr.reward[lo..hi]
    ensures forall k :: k in r.states ==> r.states[k] == PySlice(tr.states[k], lo, hi)
    ensures forall i :: 0 <= i < |r.internals| ==>
              r.internals[i].name == tr.internals[i].name
              && (lo <= hi <= |tr.internals[i].column| ==> r.internals[i].column == tr.internals[i].column[lo..hi])
    ensures forall i :: 0 <= i < |r.actions| ==>
              r.actions[i].name == tr.actions[i].name
              && (lo <= hi <= |tr.actions[i].column| ==> r.actions[i].column == tr.actions[i].column[lo..hi])
  {
    Trace(SliceMap(tr.states, lo, hi), SliceFields(tr.internals, lo, hi), SliceMap(tr.auxiliaries, lo, hi),
          SliceFields(tr.actions, lo, hi), PySlice(tr.terminal, lo, hi), PySlice(tr.reward, lo, hi))
  }

  /** The traces handed to the model, one per span, in order. */
  function BatchTraces(tr: Trace, spans: seq<Span>): (r: seq<Trace>)
    ensures |r| == |spans|
    ensures forall i :: 0 <= i < |spans| ==> r[i] == TraceSlice(tr, spans[i].lo, spans[i].hi)
  {
    seq(|spans|, i requires 0 <= i < |spans| => TraceSlice(tr, spans[i].lo, spans[i].hi))
  }

  /**
    Once the lengths are checked, every trace handed to the model holds the steps
    of its batch and nothing else: every array has the batch's length, the
    terminals are the batch's, and only its last step can be terminal.
  */
  lemma BatchTracesShape(internals: Fields, actions: Fields, t: seq<int>, reward: seq<real>, n: nat,
                         states: map<string, Column>, aux: map<string, Column>, size: int)
    requires CheckLengths(internals, actions, |t|, |reward|, n).Pass?
    ensures var spans := Batches(t, size);
            var traces := BatchTraces(Trace(states, internals, aux, actions, t, reward), spans);
            forall i :: 0 <= i < |traces| ==>
              var b := spans[i];
              && b.lo < b.hi <= |t|
              && traces[i].terminal == t[b.lo..b.hi]
              && |traces[i].reward| == b.hi - b.lo
              && (forall j :: 0 <= j < |internals| ==> |traces[i].internals[j].column| == b.hi - b.lo)
              && (forall j :: 0 <= j < |actions| ==> |traces[i].actions[j].column| == b.hi - b.lo)
              && (forall k :: 0 <= k < b.hi - b.lo - 1 ==> traces[i].terminal[k] == 0)
  {
    var spans := Batches(t, size);
    BatchesSplit(t, size);
    forall i | 0 <= i < |spans|
      ensures WellCut(t, size, spans[i])
    {
    }
  }

  lemma BatchTracesSnoc(tr: Trace, spans: seq<Span>, b: Span)
    ensures BatchTraces(tr, spans + [b]) == BatchTraces(tr, spans) + [TraceSlice(tr, b.lo, b.hi)]
  {
  }

  /** The scan either extends the open run or closes it at the current step. */
  lemma CutsUnfold(t: seq<int>, size: int, last: nat, index: nat)
    requires last < index <= |t|
    ensures t[index - 1] == 0 && index - last < size ==> Cuts(t, size, last, index) == Cuts(t, size, last, index + 1)
    ensures !(t[index - 1] == 0 && index - last < size) ==>
              Cuts(t, size, last, index) == [Span(last, index)] + Cuts(t, size, index, index + 1)
  {
  }

  /** The counters the model reports after an ingestion. */
  datatype Counts = Counts(timesteps: int, episodes: int, updates: int)

  /**
    A stand-in for the model's experience entry point: it records every trace it
    is given and reports counters, which may depend on everything given so far.
  */
  class Model {
    var ingested: seq<Trace>
    const counts: seq<Trace> -> Counts

    constructor (counts: seq<Trace> -> Counts)
      ensures ingested == [] && this.counts == counts
    {
      ingested := [];
      this.counts := counts;
    }

    method Experience(batch: Trace) returns (c: Counts)
      modifies this
      ensures ingested == old(ingested) + [batch]
      ensures c == counts(ingested)
    {
      ingested := ingested + [batch];
      c := counts(ingested);
    }
  }

  /** Every buffer index is zero: no episode is in progress. */
  predicate AllZero(s: seq<int>) {
    forall i :: 0 <= i < |s| ==> s[i] == 0
  }

  class TensorforceAgent {
    var timesteps: int
    var episodes: int
    var updates: int
    var bufferIndices: seq<int>
    const experienceSize: int
    const actionsSpec: seq<ActionSpec>
    const intActionMasking: bool
    const model: Model

    constructor (parallelInteractions: nat, experienceSize: int, actionsSpec: seq<ActionSpec>,
                 intActionMasking: bool, model: Model)
      requires DistinctNames(actionsSpec)
      ensures timesteps == 0 && episodes == 0 && updates == 0
      ensures bufferIndices == seq(parallelInteractions, _ => 0)
      ensures this.experienceSize == experienceSize && this.actionsSpec == actionsSpec
      ensures this.intActionMasking == intActionMasking && this.model == model
    {
      timesteps, episodes, updates := 0, 0, 0;
      bufferIndices := seq(parallelInteractions, _ => 0);
      this.experienceSize := experienceSize;
      this.actionsSpec := actionsSpec;
      this.intActionMasking := intActionMasking;
      this.model := model;
    }

    /** The auxiliaries and the remaining states: the masks popped action by action. */
    method PopMasks(states: map<string, Column>, numInstances: nat)
      returns (auxiliaries: map<string, Column>, rest: map<string, Column>)
      ensures (auxiliaries, rest) == MaskSplit(actionsSpec, intActionMasking, states, numInstances, map[])
    {
      auxiliaries := map[];
      rest := states;
      var i := 0;
      while i < |actionsSpec|
        invariant 0 <= i <= |actionsSpec|
        invariant MaskSplit(actionsSpec, intActionMasking, states, numInstances, map[])
               == MaskSplit(actionsSpec[i..], intActionMasking, rest, numInstances, auxiliaries)
      {
        var spec := actionsSpec[i];
        assert actionsSpec[i..][1..] == actionsSpec[i + 1..];
        if Masked(intActionMasking, spec) {
          var mask := MaskOf(spec, rest, numInstances);
          rest := rest - {StateMaskKey(spec)};
          auxiliaries := auxiliaries[AuxMaskKey(spec) := mask];
        }
        i := i + 1;
      }
    }

    /** One batch to the model; the agent takes over the counters it reports. */
    method HandOver(batch: Trace)
      modifies this, model
      ensures model.ingested == old(model.ingested) + [batch]
      ensures Counts(timesteps, episodes, updates) == model.counts(model.ingested)
      ensures bufferIndices == old(bufferIndices)
    {
      var c := model.Experience(batch);
      timesteps, episodes, updates := c.timesteps, c.episodes, c.updates;
    }

    /**
      The batching loop of `experience`: the arrays of `full` are cut by its
      terminals, each batch's trace is handed to the model in order, and the
      agent's counters are the model's after the last of them (unchanged when no
      batch is formed). The trailing steps that form no batch are not handed on.
    */
    method Feed(full: Trace)
      modifies this, model
      ensures bufferIndices == old(bufferIndices)
      ensures model.ingested == old(model.ingested) + BatchTraces(full, Batches(full.terminal, experienceSize))
      ensures Batches(full.terminal, experienceSize) == [] ==>
                timesteps == old(timesteps) && episodes == old(episodes) && updates == old(updates)
      ensures Batches(full.terminal, experienceSize) != [] ==>
                Counts(timesteps, episodes, updates) == model.counts(model.ingested)
    {
      var t := full.terminal;
      ghost var batches := Batches(t, experienceSize);
      ghost var emitted: seq<Span> := [];
      var last: nat := 0;
      var index: nat := 1;
      while index <= |t|
        invariant last < index <= |t| + 1
        invariant batches == emitted + Cuts(t, experienceSize, last, index)
        invariant model.ingested == old(model.ingested) + BatchTraces(full, emitted)
        invariant bufferIndices == old(bufferIndices)
        invariant emitted == [] ==>
                    timesteps == old(timesteps) && episodes == old(episodes) && updates == old(updates)
        invariant emitted != [] ==> Counts(timesteps, episodes, updates) == model.counts(model.ingested)
        decreases |t| + 1 - index
      {
        CutsUnfold(t, experienceSize, last, index);
        if t[index - 1] == 0 && index - last < experienceSize {
          index := index + 1;
          continue;
        }
        // The extension of the batch by one terminal step: its condition repeats the
        // continue condition just refuted, so it never applies.
        var stop: int := index;
        if index < |t| && t[index - 1] == 0 && t[index] > 0 && index - last < experienceSize {
          stop := index + 1;
        }
        assert stop == index;
        assert batches == (emitted + [Span(last, stop)]) + Cuts(t, experienceSize, stop, index + 1);
        HandOver(TraceSlice(full, last, stop));
        BatchTracesSnoc(full, emitted, Span(last, stop));
        emitted := emitted + [Span(last, stop)];
        last := stop;
        index := index + 1;
      }
    }

    /**
      `experience`: refused mid-episode; then the length checks; then the masks
      are popped, the terminals converted, and the batches handed to the model.
    */
    method Experience(states: map<string, Column>, internals: Fields, actions: Fields,
                      terminal: TerminalInput, reward: seq<real>, numInstances: nat)
      returns (r: Outcome<ExperienceError>)
      modifies this, model
      ensures bufferIndices == old(bufferIndices)
      ensures !AllZero(old(bufferIndices)) ==> r == Fail(MidEpisode)
      ensures AllZero(old(bufferIndices)) ==>
                r == CheckLengths(internals, actions, TerminalLength(terminal), |reward|, numInstances)
      ensures r.Fail? ==>
                && model.ingested == old(model.ingested)
                && timesteps == old(timesteps) && episodes == old(episodes) && updates == old(updates)
      ensures r.Pass? ==>
                var t := ToIntTerminals(terminal);
                var masks := MaskSplit(actionsSpec, intActionMasking, states, numInstances, map[]);
                var full := Trace(masks.1, internals, masks.0, actions, t, reward);
                var spans := Batches(t, experienceSize);
                && model.ingested == old(model.ingested) + BatchTraces(full, spans)
                && (spans == [] ==>
                      timesteps == old(timesteps) && episodes == old(episodes) && updates == old(updates))
                && (spans != [] ==> Counts(timesteps, episodes, updates) == model.counts(model.ingested))
    {
      if !AllZero(bufferIndices) {
        return Fail(MidEpisode);
      }
      r := CheckLengths(internals, actions, TerminalLength(terminal), |reward|, numInstances);
      if r.Fail? {
        return;
      }
      var auxiliaries, rest := PopMasks(states, numInstances);
      var t := ToIntTerminals(terminal);
      Feed(Trace(rest, internals, auxiliaries, actions, t, reward));
    }
  }
}
