/**
  The file selection and key rename of `TensorforceAgent.pretrain`
  (tensorforce/agents/tensorforce.py): the trace files are the regular files of
  the directory whose names start with "trace-", as sorted paths; each iteration
  takes all of a shuffled list of their indices or its first `num_traces`; and
  every auxiliary `<name>/mask` of the loaded batch is moved into the states as
  `<name>_mask`, where `experience` pops it again.
*/
module AgentPretrain {
  import opened Wrappers
  import AgentExperience

  type Column = AgentExperience.Column

  predicate StartsWith(s: string, prefix: string) {
    |prefix| <= |s| && s[..|prefix|] == prefix
  }

  predicate EndsWith(s: string, suffix: string) {
    |suffix| <= |s| && s[|s| - |suffix|..] == suffix
  }

  /** Python's ordering of strings: lexicographic by code point, a proper prefix first. */
  predicate LexLe(a: string, b: string)
    decreases |a|
  {
    if a == [] then true
    else if b == [] then false
    else if a[0] < b[0] then true
    else if a[0] > b[0] then false
    else LexLe(a[1..], b[1..])
  }

  lemma {:induction false} LexLeTotal(a: string, b: string)
    ensures LexLe(a, b) || LexLe(b, a)
    decreases |a|
  {
    if a != [] && b != [] && a[0] == b[0] {
      LexLeTotal(a[1..], b[1..]);
    }
  }

  lemma {:induction false} LexLeReflexive(a: string)
    ensures LexLe(a, a)
    decreases |a|
  {
    if a != [] {
      LexLeReflexive(a[1..]);
    }
  }

  lemma {:induction false} LexLeTransitive(a: string, b: string, c: string)
    requires LexLe(a, b) && LexLe(b, c)
    ensures LexLe(a, c)
    decreases |a|
  {
    if a != [] && b != [] && c != [] && a[0] == b[0] && b[0] == c[0] {
      LexLeTransitive(a[1..], b[1..], c[1..]);
    }
  }

  lemma {:induction false} LexLeAntisymmetric(a: string, b: string)
    requires LexLe(a, b) && LexLe(b, a)
    ensures a == b
    decreases |a|
  {
    if a != [] && b != [] {
      LexLeAntisymmetric(a[1..], b[1..]);
      assert a == [a[0]] + a[1..] && b == [b[0]] + b[1..];
    }
  }

  /** Paths in one directory are ordered as their file names are. */
  lemma {:induction false} LexLeCommonPrefix(p: string, a: string, b: string)
    ensures LexLe(p + a, p + b) == LexLe(a, b)
    decreases |p|
  {
    if p != [] {
      assert (p + a)[0] == p[0] == (p + b)[0];
      assert (p + a)[1..] == p[1..] + a && (p + b)[1..] == p[1..] + b;
      assert LexLe(p + a, p + b) == LexLe(p[1..] + a, p[1..] + b);
      LexLeCommonPrefix(p[1..], a, b);
    } else {
      assert p + a == a && p + b == b;
    }
  }

  /** Every path is ordered no later than its successor. */
  ghost predicate Sorted(s: seq<string>) {
    forall i, j :: 0 <= i < j < |s| ==> LexLe(s[i], s[j])
  }

  function Insert(x: string, s: seq<string>): (r: seq<string>)
    requires Sorted(s)
    ensures Sorted(r)
    ensures multiset(r) == multiset(s) + multiset{x}
  {
    if s == [] then [x]
    else if LexLe(x, s[0]) then
      SortedFront(x, s);
      [x] + s
    else
      LexLeTotal(x, s[0]);
      SortedTail(s);
      var rest := Insert(x, s[1..]);
      assert s == [s[0]] + s[1..];
      SortedBehind(x, s, rest);
      [s[0]] + rest
  }

  /** An element no greater than the head of a sorted sequence can go in front of it. */
  lemma SortedFront(x: string, s: seq<string>)
    requires Sorted(s) && s != [] && LexLe(x, s[0])
    ensures Sorted([x] + s)
  {
    forall j | 0 <= j < |s|
      ensures LexLe(x, s[j])
    {
      if j > 0 {
        LexLeTransitive(x, s[0], s[j]);
      }
    }
    var r := [x] + s;
    forall i, j | 0 <= i < j < |r|
      ensures LexLe(r[i], r[j])
    {
      assert r[j] == s[j - 1];
      if i > 0 {
        assert r[i] == s[i - 1];
      }
    }
  }

  /** The head of a sorted sequence can stay in front of the sorted insertion into its tail. */
  lemma SortedBehind(x: string, s: seq<string>, rest: seq<string>)
    requires Sorted(s) && s != [] && LexLe(s[0], x)
    requires Sorted(rest) && multiset(rest) == multiset(s[1..]) + multiset{x}
    ensures Sorted([s[0]] + rest)
  {
    forall j | 0 <= j < |rest|
      ensures LexLe(s[0], rest[j])
    {
      var y := rest[j];
      assert y in multiset(rest);
      if y != x {
        assert y in multiset(s[1..]);
        var k :| 0 <= k < |s[1..]| && s[1..][k] == y;
        assert s[k + 1] == y;
      }
    }
    var r := [s[0]] + rest;
    forall i, j | 0 <= i < j < |r|
      ensures LexLe(r[i], r[j])
    {
      assert r[j] == rest[j - 1];
      if i > 0 {
        assert r[i] == rest[i - 1];
      }
    }
  }

  /** `sorted`: an insertion sort, ordered and a permutation of its input. */
  function Sort(s: seq<string>): (r: seq<string>)
    ensures Sorted(r)
    ensures multiset(r) == multiset(s)
  {
    if s == [] then []
    else
      assert s == [s[0]] + s[1..];
      Insert(s[0], Sort(s[1..]))
  }

  lemma SortedHeadLeast(a: seq<string>, x: string)
    requires Sorted(a) && x in multiset(a)
    ensures LexLe(a[0], x)
  {
    var i :| 0 <= i < |a| && a[i] == x;
    if i == 0 {
      LexLeReflexive(x);
    }
  }

  lemma SortedTail(a: seq<string>)
    requires Sorted(a) && a != []
    ensures Sorted(a[1..])
  {
    forall i, j | 0 <= i < j < |a| - 1
      ensures LexLe(a[1..][i], a[1..][j])
    {
      assert a[1..][i] == a[i + 1] && a[1..][j] == a[j + 1];
    }
  }

  lemma TailMultiset(a: seq<string>)
    requires a != []
    ensures multiset(a[1..]) == multiset(a) - multiset{a[0]}
  {
    assert a == [a[0]] + a[1..];
  }

  /** A sorted arrangement of given paths is the only one: it does not depend on the listing order. */
  lemma {:induction false} SortedUnique(a: seq<string>, b: seq<string>)
    requires Sorted(a) && Sorted(b) && multiset(a) == multiset(b)
    ensures a == b
    decreases |a|
  {
    if a != [] {
      assert b != [] by {
        assert |b| == |multiset(b)| == |a|;
      }
      assert a[0] == b[0] by {
        assert a[0] in multiset(a) && b[0] in multiset(b);
        SortedHeadLeast(b, a[0]);
        SortedHeadLeast(a, b[0]);
        LexLeAntisymmetric(a[0], b[0]);
      }
      assert a[1..] == b[1..] by {
        TailMultiset(a);
        TailMultiset(b);
        SortedTail(a);
        SortedTail(b);
        SortedUnique(a[1..], b[1..]);
      }
      assert a == [a[0]] + a[1..] && b == [b[0]] + b[1..];
    }
  }

  /** An entry of a directory listing: its name and whether it is a regular file. */
  datatype Entry = Entry(name: string, isFile: bool)

  /** `os.path.join(directory, name)` for a plain file name. */
  function Join(directory: string, name: string): (r: string)
    ensures StartsWith(r, directory) && EndsWith(r, name)
    ensures directory == [] || directory[|directory| - 1] == '/' ==> |r| == |directory| + |name|
    ensures directory != [] && directory[|directory| - 1] != '/' ==>
              |r| == |directory| + 1 + |name| && r[|directory|] == '/'
  {
    if directory == [] || directory[|directory| - 1] == '/' then directory + name
    else directory + "/" + name
  }

  /** Within one directory, different names are joined to different paths. */
  lemma JoinInjective(directory: string, a: string, b: string)
    requires Join(directory, a) == Join(directory, b)
    ensures a == b
  {
    var p := Join(directory, a);
    var k := |p| - |a|;
    assert |a| == |b|;
    assert a == p[k..] && b == p[k..];
  }

  /** The names of the listing that are regular files starting with "trace-", in listing order. */
  function TraceNames(entries: seq<Entry>): (r: seq<string>)
    ensures forall n :: n in r <==> exists e :: e in entries && e.isFile && StartsWith(e.name, "trace-") && e.name == n
  {
    if entries == [] then []
    else
      var rest := TraceNames(entries[1..]);
      assert forall e :: e in entries <==> e == entries[0] || e in entries[1..];
      if entries[0].isFile && StartsWith(entries[0].name, "trace-") then [entries[0].name] + rest else rest
  }

  /**
    Each trace name occurs in the result as often as the listing holds a regular
    file of that name, and no other name occurs: the filter neither drops nor
    repeats an entry.
  */
  lemma {:induction false} TraceNamesCount(entries: seq<Entry>, n: string)
    ensures multiset(TraceNames(entries))[n] == if StartsWith(n, "trace-") then multiset(entries)[Entry(n, true)] else 0
    decreases |entries|
  {
    if entries != [] {
      var e := entries[0];
      var rest := TraceNames(entries[1..]);
      TraceNamesCount(entries[1..], n);
      assert entries == [e] + entries[1..];
      assert multiset(entries) == multiset{e} + multiset(entries[1..]);
      if e.isFile && StartsWith(e.name, "trace-") {
        assert multiset(TraceNames(entries)) == multiset{e.name} + multiset(rest);
      } else {
        assert TraceNames(entries) == rest;
      }
    }
  }

  function JoinAll(directory: string, names: seq<string>): (r: seq<string>)
    ensures |r| == |names|
    ensures forall i :: 0 <= i < |names| ==> r[i] == Join(directory, names[i])
  {
    seq(|names|, i requires 0 <= i < |names| => Join(directory, names[i]))
  }

  datatype PretrainError = NotADirectory(directory: string) | MaskName(name: string)

  /**
    The trace files: an error when the path is not a directory, otherwise the
    paths of the trace entries, sorted.
  */
  function TraceFiles(directory: string, isDirectory: bool, entries: seq<Entry>): (r: Result<seq<string>, PretrainError>)
    ensures r.Err? <==> !isDirectory
    ensures r.Err? ==> r.error == NotADirectory(directory)
    ensures r.Ok? ==> Sorted(r.value) && multiset(r.value) == multiset(JoinAll(directory, TraceNames(entries)))
  {
    if !isDirectory then Err(NotADirectory(directory))
    else Ok(Sort(JoinAll(directory, TraceNames(entries))))
  }

  /** Every trace file is the path of a listed regular file whose name starts with "trace-", and conversely. */
  lemma TraceFilesAreTraces(directory: string, entries: seq<Entry>)
    ensures var files := TraceFiles(directory, true, entries).value;
            forall f :: f in files <==>
              exists e :: e in entries && e.isFile && StartsWith(e.name, "trace-") && f == Join(directory, e.name)
  {
    var names := TraceNames(entries);
    var files := TraceFiles(directory, true, entries).value;
    forall f
      ensures f in files <==>
              exists e :: e in entries && e.isFile && StartsWith(e.name, "trace-") && f == Join(directory, e.name)
    {
      assert f in files <==> f in multiset(JoinAll(directory, names));
      if f in JoinAll(directory, names) {
        var i :| 0 <= i < |names| && JoinAll(directory, names)[i] == f;
        assert names[i] in names;
      }
      if exists e :: e in entries && e.isFile && StartsWith(e.name, "trace-") && f == Join(directory, e.name) {
        var e :| e in entries && e.isFile && StartsWith(e.name, "trace-") && f == Join(directory, e.name);
        assert e.name in names;
        var i :| 0 <= i < |names| && names[i] == e.name;
        assert JoinAll(directory, names)[i] == f;
      }
    }
  }

  /** The traces of one iteration: all shuffled indices, or the first `num_traces` of them. */
  function Selection(indices: seq<nat>, numTraces: Option<nat>): (r: seq<nat>)
    ensures numTraces.None? ==> r == indices
    ensures numTraces.Some? ==>
              |r| == (if numTraces.value <= |indices| then numTraces.value else |indices|)
              && r == indices[..|r|]
  {
    if numTraces.None? then indices
    else if numTraces.value <= |indices| then indices[..numTraces.value]
    else indices
  }

  /** `name[:-5] + '_mask'` for an auxiliary name ending in "/mask". */
  function MaskKey(name: string): (r: string)
    requires EndsWith(name, "/mask")
    ensures |r| == |name| && EndsWith(r, "_mask")
  {
    name[..|name| - 5] + "_mask"
  }

  /**
    The rename turns the auxiliary key under which `experience` records an
    action's mask into the state key it pops that mask from.
  */
  lemma MaskKeyOfAction(spec: AgentExperience.ActionSpec)
    ensures EndsWith(AgentExperience.AuxMaskKey(spec), "/mask")
    ensures MaskKey(AgentExperience.AuxMaskKey(spec)) == AgentExperience.StateMaskKey(spec)
  {
    assert (spec.name + "/mask")[..|spec.name|] == spec.name;
  }

  /** Different auxiliary names are renamed to different state keys. */
  lemma MaskKeyInjective(a: string, b: string)
    requires EndsWith(a, "/mask") && EndsWith(b, "/mask") && MaskKey(a) == MaskKey(b)
    ensures a == b
  {
    var p, q := a[..|a| - 5], b[..|b| - 5];
    assert |p| == |q|;
    assert p == MaskKey(a)[..|p|] && q == MaskKey(b)[..|q|];
    assert a == p + "/mask" && b == q + "/mask";
  }

  /** The state keys the given auxiliary names are renamed to. */
  ghost function RenamedKeys(names: set<string>): set<string> {
    set name | name in names && EndsWith(name, "/mask") :: MaskKey(name)
  }

  /**
    The auxiliaries named in `done` have been moved: each under its renamed key,
    and every state whose key none of them is renamed to is kept.
  */
  ghost predicate Moved(states: map<string, Column>, auxiliaries: map<string, Column>,
                        result: map<string, Column>, done: set<string>) {
    && done <= auxiliaries.Keys
    && (forall name :: name in done ==> EndsWith(name, "/mask"))
    && result.Keys == states.Keys + RenamedKeys(done)
    && (forall name :: name in done ==> MaskKey(name) in result && result[MaskKey(name)] == auxiliaries[name])
    && (forall k :: k in states && k !in RenamedKeys(done) ==> result[k] == states[k])
  }

  lemma MoveOne(states: map<string, Column>, auxiliaries: map<string, Column>,
                result: map<string, Column>, done: set<string>, name: string)
    requires Moved(states, auxiliaries, result, done)
    requires name in auxiliaries && EndsWith(name, "/mask")
    ensures Moved(states, auxiliaries, result[MaskKey(name) := auxiliaries[name]], done + {name})
  {
    var result' := result[MaskKey(name) := auxiliaries[name]];
    RenamedKeysAdd(done, name);
    assert result'.Keys == states.Keys + RenamedKeys(done + {name});
    MovedValues(auxiliaries, result, done, name);
    MovedKept(states, result, done, name, auxiliaries[name]);
  }

  /** The moved values stay in place when one more auxiliary is stored under a new key. */
  lemma MovedValues(auxiliaries: map<string, Column>, result: map<string, Column>, done: set<string>, name: string)
    requires done <= auxiliaries.Keys && forall other :: other in done ==> EndsWith(other, "/mask")
    requires forall other :: other in done ==> MaskKey(other) in result && result[MaskKey(other)] == auxiliaries[other]
    requires name in auxiliaries && EndsWith(name, "/mask")
    ensures var result' := result[MaskKey(name) := auxiliaries[name]];
            forall other :: other in done + {name} ==>
              MaskKey(other) in result' && result'[MaskKey(other)] == auxiliaries[other]
  {
    var result' := result[MaskKey(name) := auxiliaries[name]];
    forall other | other in done + {name}
      ensures MaskKey(other) in result' && result'[MaskKey(other)] == auxiliaries[other]
    {
      if other != name && MaskKey(other) == MaskKey(name) {
        MaskKeyInjective(other, name);
      }
    }
  }

  /** A state whose key is not among the renamed keys is untouched by one more store. */
  lemma MovedKept(states: map<string, Column>, result: map<string, Column>, done: set<string>, name: string,
                  value: Column)
    requires EndsWith(name, "/mask")
    requires forall k :: k in states && k !in RenamedKeys(done) ==> k in result && result[k] == states[k]
    ensures forall k :: k in states && k !in RenamedKeys(done + {name}) ==>
              k in result[MaskKey(name) := value] && result[MaskKey(name) := value][k] == states[k]
  {
    RenamedKeysAdd(done, name);
  }

  lemma RenamedKeysAdd(names: set<string>, name: string)
    requires EndsWith(name, "/mask")
    ensures RenamedKeys(names + {name}) == RenamedKeys(names) + {MaskKey(name)}
  {
  }

  /**
    Moving the auxiliaries into the states: fails on a name that does not end in
    "/mask"; otherwise every auxiliary is stored under its renamed key, replacing
    a state of that name, and every other state is kept.
  */
  method RenameMasks(states: map<string, Column>, auxiliaries: map<string, Column>)
    returns (r: Result<map<string, Column>, PretrainError>)
    ensures r.Err? <==> exists name :: name in auxiliaries && !EndsWith(name, "/mask")
    ensures r.Err? ==> r.error.MaskName? && r.error.name in auxiliaries && !EndsWith(r.error.name, "/mask")
    ensures r.Ok? ==>
              && r.value.Keys == states.Keys + RenamedKeys(auxiliaries.Keys)
              && (forall name :: name in auxiliaries ==> r.value[MaskKey(name)] == auxiliaries[name])
              && (forall k :: k in states && k !in RenamedKeys(auxiliaries.Keys) ==> r.value[k] == states[k])
  {
    var result := states;
    var remaining := auxiliaries.Keys;
    ghost var done: set<string> := {};
    assert RenamedKeys(done) == {};
    while remaining != {}
      invariant done == auxiliaries.Keys - remaining && remaining <= auxiliaries.Keys
      invariant Moved(states, auxiliaries, result, done)
      decreases remaining
    {
      var name :| name in remaining;
      if !EndsWith(name, "/mask") {
        return Err(MaskName(name));
      }
      MoveOne(states, auxiliaries, result, done, name);
      result := result[MaskKey(name) := auxiliaries[name]];
      remaining := remaining - {name};
      done := done + {name};
    }
    assert done == auxiliaries.Keys;
    return Ok(result);
  }
}
