# Tensorforce line search and agent experience handling, modelled in Dafny

This project models two parts of the Tensorforce reinforcement-learning library and proves properties of them.

**The line-search solver** is `LineSearch` in `tensorforce/core/optimizers/solvers/line_search.py`.
- It starts from an initial solution `x_init`.
- It moves back towards the origin `x'` by `deltas`.
- It keeps the first point whose improvement ratio over `x'` is acceptable.
- Its constructor checks the accept ratio and the mode.
- `start`, `step`, `next_step` and `end` are pure transitions on a threaded tuple `(x, deltas, improvement, last_improvement, estimated, additional)`.
- Their only effect is the objective `fn_x`. The model returns the arguments of its calls as a log.
- The objective receives the calls made before it, so it may depend on them.
- Structured tensors (`TensorDict`s with a fixed key set) are flattened into one sequence of reals, since `fmap` acts position by position.

**The agent** is `TensorforceAgent` in `tensorforce/agents/tensorforce.py`. Three of its parts are modelled.
- The configuration normalisation of `__init__`:
  - an integer `update` becomes a timesteps update;
  - `config['buffer_observe']` gets a default or is checked;
  - an `"episode"` horizon becomes `max_episode_timesteps`;
  - otherwise a configuration error is raised.
- `experience`:
  - it is refused mid-episode;
  - the leading lengths are checked, in the order internals, actions, terminal, reward;
  - action masks are popped from the states into the auxiliaries;
  - boolean terminals become integers;
  - the arrays are cut into batches, and the batches are handed to the model in order;
  - the agent takes over the model's counters after each batch.
- `pretrain`'s trace-file selection and its renaming of `<name>/mask` auxiliaries into `<name>_mask` states. `experience` pops the masks from exactly those keys.

Modules:
- `Wrappers`: Option, Result and Outcome.
- `Structured`: element-wise operations on flattened tensors.
- `LineSearch`: the solver's callbacks.
- `LineSearchRun`: the driver loop and closed forms of the iterates.
- `AgentBatching`: the batch splitter as a specification.
- `AgentExperience`: the length checks, mask popping, slicing, and the `Model` and `TensorforceAgent` classes.
- `AgentConfig`: the normalisation.
- `AgentPretrain`: the file list, sorting, selection and the mask rename.

Five behaviours of the code are easy to misread. The model follows the code in each:
- `end` applied directly to the state from `start` accepts, so a solve with `max_iterations = 0` returns `x_init * (1 - parameter)` without calling `fn_x`. This holds in exact arithmetic (LineSearch.Start, LineSearch.EndOfStartAccepts). In floating point the sentinel `improvement - 1.0` equals `improvement` once its magnitude is 2^25 or more in single precision (2^54 in double), and `end` then undoes instead.
- The batch splitter never hands the trailing steps that neither end in a terminal nor fill a batch to the model. Terminals `[0,0,1,0,0,0]` with size 4 give the single batch `[0:3]`.
- The counters after `experience` are not a running total. They are overwritten by the values the model returns for each batch.
- The "include terminal in batch" extension of the splitter (lines 502-504) can never apply. Its condition repeats the `continue` condition of line 498, which has just been refuted. The model keeps the branch, and the verifier proves it dead.
- The terminal and reward length errors (lines 466-475) format the variable `name`, which only the loops over the internals and the actions bind. With no internals and no actions, a mismatch there raises Python's `UnboundLocalError` rather than the intended length error. The model returns the `UnboundName` error in that case.

## Model

| member | source | states |
|---|---|---|
| LineSearch.NewSolver | tensorforce/core/optimizers/solvers/line_search.py:48-66 | a solver is built iff accept_ratio >= 0 and the mode is "linear" or "exponential"; the accept-ratio assertion comes first, then the invalid-mode error naming the mode |
| LineSearch.Ratio | tensorforce/core/optimizers/solvers/line_search.py:136-138 | the improvement is the value difference over the estimate, or over epsilon once the estimate is below it; it is positive, zero or negative exactly as the difference is |
| LineSearch.Start | tensorforce/core/optimizers/solvers/line_search.py:136-152 | improvement is difference / max(estimate, eps); last_improvement is one below it, so improvement > last_improvement; deltas = -parameter * x_init in both modes; x and the estimate are the inputs; base value kept; linear increment -ei * parameter |
| LineSearch.Advance | tensorforce/core/optimizers/solvers/line_search.py:174-185 | x moves by the current deltas; in linear mode the deltas stay and the estimate grows by the increment; in exponential mode every delta and the estimate are multiplied by the parameter |
| LineSearch.Step | tensorforce/core/optimizers/solvers/line_search.py:174-198 | next x = x + deltas; the old improvement becomes last_improvement; additional unchanged; exactly one fn_x call, with the next deltas; the new improvement is normalised by the next estimate; linear keeps the deltas and adds the increment, exponential scales deltas and estimate by the parameter |
| LineSearch.NextStep | tensorforce/core/optimizers/solvers/line_search.py:217-221 | another step is taken only while the ratio is below accept_ratio and the estimate above epsilon, and only when ending at this point would accept the last step without an undo call |
| LineSearch.End | tensorforce/core/optimizers/solvers/line_search.py:239-248 | after an improving last step, returns x + deltas with no call; otherwise exactly one call, with -deltas, and returns x |
| LineSearch.AcceptRatioReachedHalts | tensorforce/core/optimizers/solvers/line_search.py:217-221 | an improvement equal to or above the accept ratio stops the iteration |
| LineSearch.TieHaltsAndUndoes | tensorforce/core/optimizers/solvers/line_search.py:217-248 | an improvement equal to the last improvement stops the iteration, and `end` then undoes the step |
| LineSearch.HaltWhileImprovingAccepts | tensorforce/core/optimizers/solvers/line_search.py:217-248 | if the iteration stops after an improving step, the ratio was acceptable or the estimate was at most epsilon, and `end` accepts that step |
| LineSearch.UndoCancelsStep | tensorforce/core/optimizers/solvers/line_search.py:242-245 | the undo call of `end` exactly cancels the deltas of the step it rejects |
| LineSearch.EndOfStartAccepts | tensorforce/core/optimizers/solvers/line_search.py:239-248 | `end(start(...))` accepts and returns x_init * (1 - parameter) without calling fn_x |
| LineSearch.LinearScenarioStart | tensorforce/core/optimizers/solvers/line_search.py:136-146 | a concrete linear start: x_init [10], target 4 over base 0, estimate 8, parameter 0.5 gives improvement 0.5, deltas [-5], increment -4, and it continues |
| LineSearchRun.Iterate | tensorforce/core/optimizers/solvers/line_search.py:102-120 | n steps make exactly n calls, the last with the current deltas, and keep the mode payload |
| LineSearchRun.Solve | tensorforce/core/optimizers/solvers/line_search.py:102-120 | the driver loop takes at most max_iterations steps, each allowed by next_step; it stops early only when next_step fails; the result and calls are those of `end` on the last iterate |
| LineSearchRun.IterateFollowsCourses | tensorforce/core/optimizers/solvers/line_search.py:174-185 | the x, deltas and estimate after n steps are n applications of the mode's movement rule, independent of fn_x |
| LineSearchRun.LinearClosedForm | tensorforce/core/optimizers/solvers/line_search.py:177-180 | linear mode after n steps: deltas -p * x_init, x = x_init * (1 - n*p), estimate ei * (1 - n*p) |
| LineSearchRun.ExponentialClosedForm | tensorforce/core/optimizers/solvers/line_search.py:182-185 | exponential mode after n steps: deltas -x_init * p^(n+1), x = x_init * (1 - (p + ... + p^n)), estimate ei * p^n |
| LineSearchRun.LinearCalls | tensorforce/core/optimizers/solvers/line_search.py:177-187 | in linear mode every fn_x call of the steps is with -p * x_init |
| LineSearchRun.ExponentialCalls | tensorforce/core/optimizers/solvers/line_search.py:182-187 | in exponential mode the k-th fn_x call is with -x_init * p^(k+2) |
| LineSearchRun.AcceptedSolution | tensorforce/core/optimizers/solvers/line_search.py:239-240 | accepting after n steps returns x_init * (1 - (n+1)p) in linear mode and x_init * (1 - (p + ... + p^(n+1))) in exponential mode, with no call |
| LineSearchRun.RejectionUndoesLastStep | tensorforce/core/optimizers/solvers/line_search.py:242-248 | a rejection happens only after at least one step, and its undo call cancels the last step's call |
| LineSearchRun.ExponentialStepShrinks | tensorforce/core/optimizers/solvers/line_search.py:182-185 | with 0 <= p < 1 every nonzero delta strictly shrinks in magnitude at each exponential step |
| LineSearchRun.PowVanishes | tensorforce/core/optimizers/solvers/line_search.py:182-185 | p^n * (1 + n(1 - p)) <= 1 for 0 <= p <= 1, so the exponential deltas vanish when p < 1 |
| AgentBatching.Consumed | tensorforce/agents/tensorforce.py:496-513 | the cursor `last` never moves back, and it only moves to an index inside the terminal array |
| AgentBatching.Batches | tensorforce/agents/tensorforce.py:496-513 | no batch is formed exactly when no step is handed on; the properties of the batches are those of BatchesSplit and SplittingUnique |
| AgentBatching.CutsSplit | tensorforce/agents/tensorforce.py:496-513 | from any valid open run, the splitter emits batches that tile the steps in order, each well cut, and leaves a remainder with no terminal, shorter than the size |
| AgentBatching.BatchesSplit | tensorforce/agents/tensorforce.py:496-513 | the batches of a whole terminal array form such a splitting, starting at 0 |
| AgentBatching.TilesBounds | tensorforce/agents/tensorforce.py:506-513 | tiled batches are non-empty, within bounds, contiguous and in increasing order |
| AgentBatching.BatchesBounded | tensorforce/agents/tensorforce.py:497-499 | every batch is non-empty and no longer than the experience size when that is at least 1 |
| AgentBatching.SplittingUnique | tensorforce/agents/tensorforce.py:496-513 | the splitting is unique: any batches that tile, are well cut, and leave a terminal-free short remainder are exactly the emitted ones |
| AgentBatching.IncludeTerminalUnreachable | tensorforce/agents/tensorforce.py:498-504 | no emitted batch meets the include-terminal condition: the branch is dead |
| AgentBatching.TrailingRunDropped | tensorforce/agents/tensorforce.py:496-513 | terminals [0,0,1,0,0,0] with size 4 give only the batch [0:3], and the last three steps are not handed on |
| AgentBatching.FullBatchesWithoutTerminals | tensorforce/agents/tensorforce.py:497-499 | without terminals, every batch has exactly the experience size, and fewer than that many steps are left over |
| AgentExperience.FirstMismatch | tensorforce/agents/tensorforce.py:454-465 | no error iff every entry has the instance count; otherwise the error names the first offending entry in order, with its length |
| AgentExperience.CheckLengths | tensorforce/agents/tensorforce.py:453-475 | passes iff all internals, all actions, the terminals and the rewards have the instance count; otherwise the first failing check in that order is reported; a terminal or reward mismatch is the unbound-name error iff there is neither an internal nor an action |
| AgentExperience.UnboundNameExample | tensorforce/agents/tensorforce.py:466-470 | with no internals and no actions, a terminal length of 2 for 3 instances is the unbound-name error; with one internal it is the `len(terminal)` error |
| AgentExperience.ToIntTerminals | tensorforce/agents/tensorforce.py:489-493 | boolean terminals become 1 where True and 0 where False, length preserved; integer terminals are kept |
| AgentExperience.Ones | tensorforce/agents/tensorforce.py:482-484 | the default mask is n rows of shape-size times num-values ones |
| AgentExperience.MaskOf | tensorforce/agents/tensorforce.py:480-483 | the mask is the state `<name>_mask` when the states have it, otherwise n rows of shape-size times num-values ones |
| AgentExperience.MaskSplit | tensorforce/agents/tensorforce.py:477-487 | collected masks are only added to, and the remaining states are a part of the given states with their values kept |
| AgentExperience.MaskSplitSpec | tensorforce/agents/tensorforce.py:477-487 | each masked action's auxiliary `<name>/mask` is the state `<name>_mask` if present, else the default; exactly those keys are added; the popped keys leave the states and nothing else does |
| AgentExperience.PySlice | tensorforce/agents/tensorforce.py:506 | Python slicing: the sequence slice inside the bounds, the rest of the sequence when only the upper bound is past the end, and empty when the range is empty or starts past the end |
| AgentExperience.TraceSlice | tensorforce/agents/tensorforce.py:506-512 | every part of the trace is cut to the same range: the keys of the states and auxiliaries and the names and order of the internals and actions are kept, and each array in range becomes its slice |
| AgentExperience.BatchTraces | tensorforce/agents/tensorforce.py:506-512 | one trace per batch, in batch order, each the input cut to its batch |
| AgentExperience.BatchTracesShape | tensorforce/agents/tensorforce.py:506-512 | after the length checks, each trace handed to the model has the batch's terminals, every array has the batch's length, and only its last step can be terminal |
| AgentExperience.Model.Experience | tensorforce/agents/tensorforce.py:526-529 | the model records the trace it is given and reports counters |
| AgentExperience.TensorforceAgent.PopMasks | tensorforce/agents/tensorforce.py:477-487 | the pop loop over the actions specification computes the auxiliaries and the remaining states of the mask rule |
| AgentExperience.TensorforceAgent.HandOver | tensorforce/agents/tensorforce.py:526-532 | one batch goes to the model, and the agent's three counters are overwritten with the model's totals after it |
| AgentExperience.TensorforceAgent.Feed | tensorforce/agents/tensorforce.py:495-532 | the loop hands the model exactly the traces of the batches, in order; the counters are the model's after the last batch, unchanged if there is none |
| AgentExperience.TensorforceAgent.Experience | tensorforce/agents/tensorforce.py:378-532 | refused mid-episode, then the length errors (including the unbound-name error), with nothing handed on; otherwise the masks are popped, the terminals converted and the batches handed on; buffer indices unchanged |
| AgentConfig.Less | tensorforce/agents/tensorforce.py:306-318 | an ordering comparison is defined only between numbers, and is true iff the first is smaller |
| AgentConfig.UpdateOf | tensorforce/agents/tensorforce.py:289-290 | an integer update n becomes exactly {unit: "timesteps", batch_size: n}; a dictionary is kept |
| AgentConfig.NormaliseConfig | tensorforce/agents/tensorforce.py:289-338 | the error for each rule in precedence order: parallel interactions, then timesteps, then episodes, then the horizon; buffer_observe is only ever added, by the first applicable default (episode length; an integer batch size else 1; episode length else 1000); an "episode" horizon becomes the episode length; nothing else changes |
| AgentConfig.NormaliseTwice | tensorforce/agents/tensorforce.py:289-338 | normalising an already normalised configuration gives it back unchanged, if a timesteps batch size is an integer |
| AgentPretrain.LexLeCommonPrefix | tensorforce/agents/tensorforce.py:564-567 | paths in one directory are ordered as their file names are |
| AgentPretrain.Sort | tensorforce/agents/tensorforce.py:564-567 | `sorted`: the result is ordered and a permutation of its input |
| AgentPretrain.SortedUnique | tensorforce/agents/tensorforce.py:564-567 | the sorted file list does not depend on the listing order: two sorted permutations of the same paths are equal |
| AgentPretrain.Join | tensorforce/agents/tensorforce.py:565 | the path starts with the directory and ends with the name, with one "/" between them unless the directory is empty or already ends in "/" |
| AgentPretrain.JoinInjective | tensorforce/agents/tensorforce.py:565 | within one directory, different names give different paths |
| AgentPretrain.LexLeTotal | tensorforce/agents/tensorforce.py:564-567 | any two names are comparable under Python's string order, the order `sorted` uses |
| AgentPretrain.LexLeReflexive | tensorforce/agents/tensorforce.py:564-567 | every name is ordered no later than itself |
| AgentPretrain.LexLeTransitive | tensorforce/agents/tensorforce.py:564-567 | the string order is transitive |
| AgentPretrain.LexLeAntisymmetric | tensorforce/agents/tensorforce.py:564-567 | two names ordered both ways are equal, so the order is total and the sorted list is unique |
| AgentPretrain.TraceNames | tensorforce/agents/tensorforce.py:564-567 | a name is kept iff it belongs to a regular file and starts with "trace-" |
| AgentPretrain.TraceNamesCount | tensorforce/agents/tensorforce.py:564-568 | each name occurs in the filtered list exactly as often as the listing holds a regular file of that name starting with "trace-", and no other name occurs; so the number of files, from which `indices` is built, is the number of matching entries |
| AgentPretrain.TraceFiles | tensorforce/agents/tensorforce.py:560-567 | an error iff the path is not a directory; otherwise the sorted trace paths, a permutation of the joined trace names |
| AgentPretrain.TraceFilesAreTraces | tensorforce/agents/tensorforce.py:564-567 | a path is a trace file iff it joins the directory with a regular file's name starting with "trace-" |
| AgentPretrain.Selection | tensorforce/agents/tensorforce.py:570-575 | all indices without num_traces, else the first num_traces of them (all, if fewer) |
| AgentPretrain.MaskKey | tensorforce/agents/tensorforce.py:596 | the renamed key has the same length and ends in "_mask" |
| AgentPretrain.MaskKeyOfAction | tensorforce/agents/tensorforce.py:594-596 | renaming the auxiliary `<name>/mask` gives exactly the state key `<name>_mask` that `experience` pops the mask from |
| AgentPretrain.MaskKeyInjective | tensorforce/agents/tensorforce.py:594-596 | different auxiliary names are renamed to different state keys |
| AgentPretrain.RenameMasks | tensorforce/agents/tensorforce.py:594-596 | fails iff some auxiliary name does not end in "/mask"; otherwise every auxiliary is stored under its renamed key, and every other state is kept |

## Left out

- Floating-point rounding: all arithmetic is on exact reals.
- LineSearch.EndOfStartAccepts: holds in exact arithmetic only. It fails in floating point once the start improvement is large enough that subtracting 1.0 no longer changes it.
- Epsilon: the library constant is an abstract positive parameter.
- Parameter modules: `accept_ratio` and `parameter` are fixed reals for one solve. Schedules are outside the model.
- TensorFlow machinery: `tf_function`, `tf.cond`, control dependencies, signatures and `kwargs_to_args`, loop unrolling and `to_tensor`.
- LineSearchRun.Solve: the `Iterative` base class that runs the solve loop is not part of this model. `Solve` is a harness built on an assumption about that class: it calls start, then step while next_step holds and fewer than max_iterations steps were taken, then end.
- LineSearch.NewSolver: the accept ratio's upper bound of 1 and the parameter bounds are enforced by the parameter modules, which are not modelled. Only the assertion `accept_ratio >= 0` is.
- `_process_states_input`: it belongs to the `Agent` base class and is not part of this model. `experience` takes the processed states and the instance count as inputs.
- Input stacking: the iterable-of-dicts stacking (lines 386-418), the expansion of unbatched input and the type errors for non-dict inputs are not modelled. Line 415 zips the actions onto `internals[0]`, which looks unintended.
- `TensorforceModel`: the `Model` class stands only for its construction and `model.experience`. It records the traces it receives and reports counters through a given function. `model.update` and the agent's `update()` are not modelled.
- Tensor shapes: each instance's tensor is flattened to a row of reals. The default mask's shape beyond "rows of ones" is not modelled.
- AgentExperience.ToIntTerminals: terminals arrive either as booleans or as integers. Other numpy dtypes are not modelled.
- AgentConfig.Less: Python can order two strings, but `Less` returns no answer for any comparison involving a string, so the model treats it as the TypeError case.
- AgentConfig.NormaliseConfig: settings are integers, floats, strings or None. Booleans are not modelled. Through `Less`, a comparison between two strings is treated as the TypeError case.
- AgentConfig.NormaliseConfig: the parameters of `__init__` outside lines 289-338, and the `reward_estimation = None` case, are not modelled.
- `pretrain`: the filesystem access, `np.load`, the concatenation of loaded traces, `shuffle` (the shuffled indices are an input) and the update calls are not modelled. The directory listing is given as names with an is-file flag, and the directory test as a flag.
- AgentPretrain.RenameMasks: the auxiliaries are treated as a flat dictionary keyed `<action>/mask`. When a name is rejected, the states already moved are not visible, because the assertion error leaves `pretrain`.
