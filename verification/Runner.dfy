/** internal/runner.go: which repositories go into which output file, and in what order. */
module Runner {
  import opened Wrappers
  import opened Sorting

  datatype RepositoryEntry = RepositoryEntry(output: string, structName: string)

  /** join is filepath.Join, of which nothing is known. */
  datatype Config = Config(repositories: map<string, RepositoryEntry>, dir: string, join: (string, string) -> string) {

    function File(key: string): string {
      if key in repositories then join(dir, repositories[key].output) else ""
    }
  }

  datatype Entry = Entry(dir: string, interfaceName: string, structName: string)

  datatype Plan = Plan(order: seq<string>, groups: map<string, seq<Entry>>)

  /** splitKey: the text before and after the last slash. */
  function SplitKey(key: string): Option<(string, string)> {
    if key == "" then None
    else if key[|key| - 1] == '/' then Some((key[..|key| - 1], ""))
    else
      match SplitKey(key[..|key| - 1])
      case None => None
      case Some((dir, name)) => Some((dir, name + [key[|key| - 1]]))
  }

  /** A key splits exactly if it has a slash, at its last one. */
  lemma {:induction false} SplitKeyExact(key: string)
    ensures match SplitKey(key)
            case None => '/' !in key
            case Some((dir, name)) => key == dir + "/" + name && '/' !in name
    decreases |key|
  {
    if key != "" {
      assert key == key[..|key| - 1] + [key[|key| - 1]];
      if key[|key| - 1] != '/' {
        SplitKeyExact(key[..|key| - 1]);
      }
    }
  }

  function Self(s: string): string {
    s
  }

  // ---- The grouping of a list of keys ----

  /** The output files, each where its first key stands. */
  function FirstFiles(cfg: Config, keys: seq<string>): seq<string> {
    if keys == [] then []
    else
      var files, f := FirstFiles(cfg, keys[..|keys| - 1]), cfg.File(keys[|keys| - 1]);
      if f in files then files else files + [f]
  }

  /** The keys that go into file f. */
  function Group(cfg: Config, keys: seq<string>, f: string): seq<string> {
    if keys == [] then []
    else
      Group(cfg, keys[..|keys| - 1], f) + (if cfg.File(keys[|keys| - 1]) == f then [keys[|keys| - 1]] else [])
  }

  ghost predicate Usable(cfg: Config, keys: seq<string>) {
    forall k | k in keys :: k in cfg.repositories && SplitKey(k).Some?
  }

  /** What is recorded for a usable key. */
  function EntryOf(cfg: Config, key: string): Entry {
    if key in cfg.repositories && SplitKey(key).Some? then
      Entry(cfg.join(cfg.dir, SplitKey(key).value.0), SplitKey(key).value.1, cfg.repositories[key].structName)
    else Entry("", "", "")
  }

  function Entries(cfg: Config, keys: seq<string>): (es: seq<Entry>)
    ensures |es| == |keys| && forall i | 0 <= i < |keys| :: es[i] == EntryOf(cfg, keys[i])
  {
    seq(|keys|, i requires 0 <= i < |keys| => EntryOf(cfg, keys[i]))
  }

  /** Each file, in order, with the entries of its group. */
  function PlanOf(cfg: Config, keys: seq<string>): Plan {
    var files := FirstFiles(cfg, keys);
    Plan(files, map f | f in files :: Entries(cfg, Group(cfg, keys, f)))
  }

  /** The map's keys, in whatever order iteration gives them. */
  method MapKeys(m: map<string, RepositoryEntry>) returns (keys: seq<string>)
    ensures multiset(keys) == multiset(m.Keys)
  {
    keys := [];
    var left := m.Keys;
    while left != {}
      invariant left <= m.Keys
      invariant multiset(keys) + multiset(left) == multiset(m.Keys)
      decreases left
    {
      var k :| k in left;
      keys := keys + [k];
      left := left - {k};
    }
  }

  /** The outcome over a list of keys: the plan if all of them split, and otherwise the first that does not. */
  ghost predicate Outcome(cfg: Config, keys: seq<string>, r: Result<Plan, string>) {
    match r
    case Success(p) => Usable(cfg, keys) && p == PlanOf(cfg, keys)
    case Failure(bad) => FirstBad(keys, bad)
  }

  /** Run up to the generation of files. */
  method MakePlan(cfg: Config) returns (r: Result<Plan, string>)
    ensures exists keys :: SortOf(Self, multiset(cfg.repositories.Keys), keys) && Outcome(cfg, keys, r)
  {
    var unordered := MapKeys(cfg.repositories);
    var sorted := Sort(Self, unordered);
    forall key | key in sorted
      ensures key in cfg.repositories
    {
      assert key in multiset(sorted);
    }
    r := GroupKeys(cfg, sorted);
  }

  /** Run's loop over the sorted keys, which fills outputGroups and outFileOrder. */
  method GroupKeys(cfg: Config, keys: seq<string>) returns (r: Result<Plan, string>)
    requires forall key | key in keys :: key in cfg.repositories
    ensures Outcome(cfg, keys, r)
  {
    var outputGroups: map<string, seq<Entry>>, outFileOrder: seq<string> := map[], [];
    for n := 0 to |keys|
      invariant Usable(cfg, keys[..n]) && Plan(outFileOrder, outputGroups) == PlanOf(cfg, keys[..n])
    {
      var key := keys[n];
      var split := SplitKey(key);
      if split.None? {
        assert forall i | 0 <= i < n :: keys[i] in keys[..n];
        return Failure(key);
      }
      var entry := Entry(cfg.join(cfg.dir, split.value.0), split.value.1, cfg.repositories[key].structName);
      var outFile := cfg.join(cfg.dir, cfg.repositories[key].output);
      PlanSnoc(cfg, keys[..n], key);
      assert keys[..n + 1] == keys[..n] + [key];
      if outFile !in outputGroups {
        outFileOrder := outFileOrder + [outFile];
        outputGroups := outputGroups[outFile := [entry]];
      } else {
        outputGroups := outputGroups[outFile := outputGroups[outFile] + [entry]];
      }
    }
    assert keys[..|keys|] == keys;
    return Success(Plan(outFileOrder, outputGroups));
  }

  ghost predicate FirstBad(keys: seq<string>, bad: string) {
    exists n | 0 <= n < |keys| ::
      keys[n] == bad && SplitKey(bad).None? && forall i | 0 <= i < n :: SplitKey(keys[i]).Some?
  }

  /** One more key: it joins its file's group, or opens one at the end. */
  lemma PlanSnoc(cfg: Config, keys: seq<string>, key: string)
    ensures var p, f, e := PlanOf(cfg, keys), cfg.File(key), EntryOf(cfg, key);
            PlanOf(cfg, keys + [key]) ==
            if f in p.order then Plan(p.order, p.groups[f := p.groups[f] + [e]])
            else Plan(p.order + [f], p.groups[f := [e]])
  {
    var p, q, f, e := PlanOf(cfg, keys), PlanOf(cfg, keys + [key]), cfg.File(key), EntryOf(cfg, key);
    assert q.order == if f in p.order then p.order else p.order + [f] by {
      assert (keys + [key])[..|keys|] == keys;
    }
    var expected := p.groups[f := (if f in p.order then p.groups[f] else []) + [e]];
    forall g | g in q.order
      ensures q.groups[g] == expected[g]
    {
      GroupSnoc(cfg, keys, key, g);
      if g !in p.order {
        NoGroup(cfg, keys, g);
      }
    }
    assert q.groups.Keys == expected.Keys;
    assert q.groups == expected;
    assert [] + [e] == [e];
  }

  lemma GroupSnoc(cfg: Config, keys: seq<string>, key: string, f: string)
    ensures Entries(cfg, Group(cfg, keys + [key], f)) ==
            Entries(cfg, Group(cfg, keys, f)) + (if cfg.File(key) == f then [EntryOf(cfg, key)] else [])
  {
    assert (keys + [key])[..|keys|] == keys;
  }

  lemma {:induction false} NoGroup(cfg: Config, keys: seq<string>, f: string)
    requires f !in FirstFiles(cfg, keys)
    ensures Group(cfg, keys, f) == []
    decreases keys
  {
    if keys != [] {
      NoGroup(cfg, keys[..|keys| - 1], f);
    }
  }

  // ---- What the grouping is ----

  /** A key is in its own file's group and in no other. */
  lemma {:induction false} GroupExact(cfg: Config, keys: seq<string>, f: string, key: string)
    ensures key in Group(cfg, keys, f) <==> key in keys && cfg.File(key) == f
    ensures key in keys ==> cfg.File(key) in FirstFiles(cfg, keys)
    decreases keys
  {
    if keys != [] {
      GroupExact(cfg, keys[..|keys| - 1], f, key);
      assert keys == keys[..|keys| - 1] + [keys[|keys| - 1]];
    }
  }

  /**
   What a plan says, in terms of the configuration alone: the i-th entry of a file is for the i-th key of its group,
   whose configured output, joined to the directory, is that file; the key is a directory and a name, and the entry has
   the joined directory, the name and the configured struct name.
   */
  lemma PlanExact(cfg: Config, keys: seq<string>, f: string, i: nat) returns (dir: string)
    requires Usable(cfg, keys) && f in PlanOf(cfg, keys).groups && i < |Group(cfg, keys, f)|
    ensures var key := Group(cfg, keys, f)[i];
            && |PlanOf(cfg, keys).groups[f]| == |Group(cfg, keys, f)|
            && key in cfg.repositories
            && f == cfg.join(cfg.dir, cfg.repositories[key].output)
            && var e := PlanOf(cfg, keys).groups[f][i];
               && key == dir + "/" + e.interfaceName && '/' !in e.interfaceName
               && e.dir == cfg.join(cfg.dir, dir)
               && e.structName == cfg.repositories[key].structName
  {
    var key := Group(cfg, keys, f)[i];
    GroupExact(cfg, keys, f, key);
    SplitKeyExact(key);
    dir := SplitKey(key).value.0;
  }

  /** The files of a plan are those that some key is configured for, each once. */
  lemma PlanFiles(cfg: Config, keys: seq<string>, f: string)
    requires Usable(cfg, keys)
    ensures var p := PlanOf(cfg, keys);
            && (f in p.order <==> exists key | key in keys && key in cfg.repositories ::
                                    cfg.join(cfg.dir, cfg.repositories[key].output) == f)
            && (f in p.order <==> f in p.groups)
            && Distinct(p.order)
  {
    FirstFilesDistinct(cfg, keys);
    if i :| 0 <= i < |FirstFiles(cfg, keys)| && FirstFiles(cfg, keys)[i] == f {
      FileHasKey(cfg, keys, i);
      GroupExact(cfg, keys, f, Group(cfg, keys, f)[0]);
    }
    forall key | key in keys && cfg.File(key) == f
      ensures f in FirstFiles(cfg, keys)
    {
      GroupExact(cfg, keys, f, key);
    }
  }

  /** The groups one after the other, in the order of the given files. */
  function AllGroups(cfg: Config, keys: seq<string>, files: seq<string>): seq<string> {
    if files == [] then [] else Group(cfg, keys, files[0]) + AllGroups(cfg, keys, files[1..])
  }

  ghost predicate Distinct(xs: seq<string>) {
    forall i, j | 0 <= i < j < |xs| :: xs[i] != xs[j]
  }

  lemma {:induction false} FirstFilesDistinct(cfg: Config, keys: seq<string>)
    ensures Distinct(FirstFiles(cfg, keys))
    decreases keys
  {
    if keys != [] {
      FirstFilesDistinct(cfg, keys[..|keys| - 1]);
    }
  }

  lemma {:induction false} AllGroupsSnoc(cfg: Config, keys: seq<string>, key: string, files: seq<string>)
    requires Distinct(files)
    ensures multiset(AllGroups(cfg, keys + [key], files)) ==
            multiset(AllGroups(cfg, keys, files)) + (if cfg.File(key) in files then multiset{key} else multiset{})
    decreases files
  {
    if files != [] {
      assert (keys + [key])[..|keys|] == keys;
      AllGroupsSnoc(cfg, keys, key, files[1..]);
      assert files == [files[0]] + files[1..];
    }
  }

  lemma {:induction false} AllGroupsOneMore(cfg: Config, keys: seq<string>, files: seq<string>, f: string)
    requires Group(cfg, keys, f) == []
    ensures AllGroups(cfg, keys, files + [f]) == AllGroups(cfg, keys, files)
    decreases files
  {
    if files == [] {
      assert ([] + [f])[1..] == [];
    } else {
      assert (files + [f])[1..] == files[1..] + [f];
      AllGroupsOneMore(cfg, keys, files[1..], f);
    }
  }

  /** Nothing is lost and nothing doubled: the groups together are a permutation of the keys. */
  lemma {:induction false} GroupsPartition(cfg: Config, keys: seq<string>)
    ensures multiset(AllGroups(cfg, keys, FirstFiles(cfg, keys))) == multiset(keys)
    decreases keys
  {
    if keys != [] {
      var before, key := keys[..|keys| - 1], keys[|keys| - 1];
      var files := FirstFiles(cfg, before);
      assert keys == before + [key];
      GroupsPartition(cfg, before);
      FirstFilesDistinct(cfg, keys);
      if cfg.File(key) !in files {
        NoGroup(cfg, before, cfg.File(key));
        AllGroupsOneMore(cfg, before, files, cfg.File(key));
      }
      AllGroupsSnoc(cfg, before, key, FirstFiles(cfg, keys));
    }
  }

  /** Keys rise within a group. */
  lemma {:induction false} GroupSorted(cfg: Config, keys: seq<string>, f: string)
    requires Sorted(Self, keys)
    ensures Sorted(Self, Group(cfg, keys, f))
    decreases keys
  {
    if keys != [] {
      var before := keys[..|keys| - 1];
      GroupSorted(cfg, before, f);
      forall i | 0 <= i < |Group(cfg, before, f)|
        ensures Leq(Group(cfg, before, f)[i], keys[|keys| - 1])
      {
        GroupExact(cfg, before, f, Group(cfg, before, f)[i]);
        var k :| 0 <= k < |before| && before[k] == Group(cfg, before, f)[i];
        assert Leq(Self(keys[k]), Self(keys[|keys| - 1]));
      }
    }
  }

  /** Files come in the order of their groups' first keys, which by GroupSorted are the least. */
  lemma {:induction false} FilesByLeastKey(cfg: Config, keys: seq<string>, i: nat, j: nat)
    requires Sorted(Self, keys) && i < j < |FirstFiles(cfg, keys)|
    ensures var files := FirstFiles(cfg, keys);
            var g, h := Group(cfg, keys, files[i]), Group(cfg, keys, files[j]);
            g != [] && h != [] && Leq(g[0], h[0])
    decreases keys
  {
    var before, key := keys[..|keys| - 1], keys[|keys| - 1];
    var files := FirstFiles(cfg, before);
    if j < |files| {
      FilesByLeastKey(cfg, before, i, j);
    } else {
      FileHasKey(cfg, before, i);
      var g := Group(cfg, before, files[i]);
      GroupExact(cfg, before, files[i], g[0]);
      var k :| 0 <= k < |before| && before[k] == g[0];
      assert Leq(Self(keys[k]), Self(key));
      NoGroup(cfg, before, cfg.File(key));
    }
  }

  lemma {:induction false} FileHasKey(cfg: Config, keys: seq<string>, i: nat)
    requires i < |FirstFiles(cfg, keys)|
    ensures Group(cfg, keys, FirstFiles(cfg, keys)[i]) != []
    decreases keys
  {
    if i < |FirstFiles(cfg, keys[..|keys| - 1])| {
      FileHasKey(cfg, keys[..|keys| - 1], i);
    }
  }

  /** Map iteration order does not show: there is only one outcome of MakePlan that its contract allows. */
  lemma PlanDeterministic(cfg: Config, keys: seq<string>, r: Result<Plan, string>,
                          keys': seq<string>, r': Result<Plan, string>)
    requires SortOf(Self, multiset(cfg.repositories.Keys), keys) && Outcome(cfg, keys, r)
    requires SortOf(Self, multiset(cfg.repositories.Keys), keys') && Outcome(cfg, keys', r')
    ensures r == r'
  {
    SortUnique(Self, multiset(cfg.repositories.Keys), keys, keys');
  }
}
