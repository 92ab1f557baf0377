/**
 * The planning half of `BinaryIgnoreNoneTypeDatasource.prepare_read`: clamp
 * the parallelism to the number of paths, cut the path list into contiguous
 * groups the way `np.array_split` does, resolve every entry of a group, and
 * keep one read task per group that resolved to at least one path.
 */
module Planning {
  import opened Wrappers
  import opened Seqs
  import opened Paths

  function Min(a: int, b: int): int
  {
    if a < b then a else b
  }

  // ---------------------------------------------------------------------
  // np.array_split
  // ---------------------------------------------------------------------

  /**
   * Where group `i` starts when items are cut into groups of `q` items, the
   * first `r` of them holding one item more (numpy's `div_points`).
   */
  function SplitPoint(q: nat, r: nat, i: nat): nat
  {
    if i == 0 then 0 else SplitPoint(q, r, i - 1) + q + (if i - 1 < r then 1 else 0)
  }

  lemma SplitPointStep(q: nat, r: nat, i: nat)
    ensures SplitPoint(q, r, i + 1) == SplitPoint(q, r, i) + q + (if i < r then 1 else 0)
  {
  }

  lemma {:induction false} SplitPointClosed(q: nat, r: nat, i: nat)
    ensures SplitPoint(q, r, i) == i * q + Min(i, r)
  {
    if i > 0 {
      SplitPointClosed(q, r, i - 1);
      assert i * q == (i - 1) * q + q;
    }
  }

  lemma SplitPointBounds(n: nat, p: nat, i: nat)
    requires 0 < p && i <= p
    ensures SplitPoint(n / p, n % p, i) <= n
    ensures i == p ==> SplitPoint(n / p, n % p, i) == n
  {
    var q, r := n / p, n % p;
    assert p * q + r == n;
    SplitPointClosed(q, r, i);
    MulMonotone(i, p, q);
  }

  lemma MulMonotone(a: nat, b: nat, c: nat)
    requires a <= b
    ensures a * c <= b * c
  {
  }

  /** `s[a:b]`, which is empty when the bounds are out of order. */
  function Slice<T>(s: seq<T>, a: nat, b: nat): seq<T>
  {
    if a <= b <= |s| then s[a..b] else []
  }

  /** `p` consecutive slices of `s`, cut at the split points for `q` and `r`. */
  function SplitWith<T>(s: seq<T>, p: nat, q: nat, r: nat): (groups: seq<seq<T>>)
    ensures |groups| == p
  {
    seq(p, i => GroupAt(s, q, r, i))
  }

  /** Group `i`: the slice between split points `i` and `i + 1`. */
  function GroupAt<T>(s: seq<T>, q: nat, r: nat, i: int): seq<T>
  {
    if i < 0 then [] else Slice(s, SplitPoint(q, r, i), SplitPoint(q, r, i + 1))
  }

  /** `np.array_split(s, p)`: `p` contiguous groups of near-equal size, in order. */
  function ArraySplit<T>(s: seq<T>, p: nat): (groups: seq<seq<T>>)
    requires p > 0
    ensures |groups| == p
  {
    SplitWith(s, p, |s| / p, |s| % p)
  }

  lemma SplitWithGroup<T>(s: seq<T>, p: nat, q: nat, r: nat, i: nat)
    requires i < p && SplitPoint(q, r, p) == |s|
    ensures SplitPoint(q, r, i) <= SplitPoint(q, r, i + 1) <= |s|
    ensures SplitWith(s, p, q, r)[i] == s[SplitPoint(q, r, i)..SplitPoint(q, r, i + 1)]
    ensures |SplitWith(s, p, q, r)[i]| == q + (if i < r then 1 else 0)
  {
    var a, b := SplitPoint(q, r, i), SplitPoint(q, r, i + 1);
    GroupBounds(q, r, i, p, |s|);
    assert SplitWith(s, p, q, r)[i] == GroupAt(s, q, r, i);
    assert GroupAt(s, q, r, i) == Slice(s, a, b) == s[a..b];
  }

  /** Group `i` of `p` lies inside the `n` items and holds `q` items, or one more among the first `r`. */
  lemma GroupBounds(q: nat, r: nat, i: nat, p: nat, n: nat)
    requires i < p && SplitPoint(q, r, p) == n
    ensures SplitPoint(q, r, i) <= SplitPoint(q, r, i + 1) <= n
    ensures SplitPoint(q, r, i + 1) - SplitPoint(q, r, i) == q + (if i < r then 1 else 0)
  {
    SplitPointStep(q, r, i);
    SplitPointMonotone(q, r, i + 1, p);
  }

  lemma {:induction false} SplitPointMonotone(q: nat, r: nat, i: nat, j: nat)
    requires i <= j
    ensures SplitPoint(q, r, i) <= SplitPoint(q, r, j)
    decreases j
  {
    if i < j {
      SplitPointMonotone(q, r, i, j - 1);
    }
  }

  /** `groups` are the consecutive slices of `s` between the split points for `q` and `r`. */
  ghost predicate IsCut<T>(s: seq<T>, groups: seq<seq<T>>, q: nat, r: nat)
  {
    forall i {:trigger groups[i]} :: 0 <= i < |groups| ==>
      SplitPoint(q, r, i) <= SplitPoint(q, r, i + 1) <= |s| &&
      groups[i] == s[SplitPoint(q, r, i)..SplitPoint(q, r, i + 1)]
  }

  lemma SplitWithIsCut<T>(s: seq<T>, p: nat, q: nat, r: nat)
    requires SplitPoint(q, r, p) == |s|
    ensures IsCut(s, SplitWith(s, p, q, r), q, r)
  {
    var groups := SplitWith(s, p, q, r);
    forall i {:trigger groups[i]} | 0 <= i < |groups|
      ensures SplitPoint(q, r, i) <= SplitPoint(q, r, i + 1) <= |s| &&
        groups[i] == s[SplitPoint(q, r, i)..SplitPoint(q, r, i + 1)]
    {
      SplitWithGroup(s, p, q, r, i);
    }
  }

  /** Consecutive slices join into the prefix of `s` that ends where the next one starts. */
  lemma {:induction false} JoinSlices<T>(s: seq<T>, groups: seq<seq<T>>, q: nat, r: nat, k: nat)
    requires k <= |groups| && IsCut(s, groups, q, r)
    ensures SplitPoint(q, r, k) <= |s|
    ensures Flatten(groups[..k]) == s[..SplitPoint(q, r, k)]
    decreases k
  {
    if k > 0 {
      var a, b := SplitPoint(q, r, k - 1), SplitPoint(q, r, k);
      JoinSlices(s, groups, q, r, k - 1);
      assert a <= b <= |s| && groups[k - 1] == s[a..b];
      FlattenLast(groups, k);
      SliceJoin(s, a, b);
    } else {
      assert SplitPoint(q, r, 0) == 0;
    }
  }

  lemma FlattenLast<T>(ss: seq<seq<T>>, k: nat)
    requires 0 < k <= |ss|
    ensures Flatten(ss[..k]) == Flatten(ss[..k - 1]) + ss[k - 1]
  {
    assert ss[..k][..k - 1] == ss[..k - 1];
  }

  lemma SliceJoin<T>(s: seq<T>, a: nat, b: nat)
    requires a <= b <= |s|
    ensures s[..a] + s[a..b] == s[..b]
  {
  }

  /**
   * Group sizes: the first `|s| % p` groups have one element more than the
   * rest, so any two sizes differ by at most one, and no group is empty
   * when there are at least as many elements as groups.
   */
  lemma ArraySplitSizes<T>(s: seq<T>, p: nat)
    requires p > 0
    ensures forall i :: 0 <= i < p ==>
      |ArraySplit(s, p)[i]| == |s| / p + (if i < |s| % p then 1 else 0)
    ensures forall i, j :: 0 <= i < p && 0 <= j < p ==>
      |ArraySplit(s, p)[i]| <= |ArraySplit(s, p)[j]| + 1
    ensures p <= |s| ==> forall i :: 0 <= i < p ==> ArraySplit(s, p)[i] != []
  {
    var q, r := |s| / p, |s| % p;
    SplitPointBounds(|s|, p, p);
    forall i | 0 <= i < p
      ensures |ArraySplit(s, p)[i]| == q + (if i < r then 1 else 0)
    {
      SplitWithGroup(s, p, q, r, i);
    }
    if p <= |s| {
      DivAtLeastOne(|s|, p);
    }
  }

  lemma DivAtLeastOne(n: nat, p: nat)
    requires 0 < p <= n
    ensures n / p >= 1
  {
  }

  /** Joining the groups gives back the input, element for element. */
  lemma ArraySplitConcat<T>(s: seq<T>, p: nat)
    requires p > 0
    ensures Flatten(ArraySplit(s, p)) == s
  {
    var q, r := |s| / p, |s| % p;
    SplitPointBounds(|s|, p, p);
    var groups := SplitWith(s, p, q, r);
    SplitWithIsCut(s, p, q, r);
    JoinSlices(s, groups, q, r, p);
    assert groups[..p] == groups;
    assert s[..|s|] == s;
  }

  // ---------------------------------------------------------------------
  // Resolution of one entry
  // ---------------------------------------------------------------------

  /**
   * `_resolve_paths_and_filesystem` followed by `meta_provider.expand_paths`
   * for one raw path: the expanded paths paired with their sizes, or `None`
   * when either call raises.
   */
  type Expander = string -> Option<seq<(string, Option<nat>)>>

  /** A `partition_filter`: keeps some of the expanded paths. */
  type PartitionFilter = seq<string> -> seq<string>

  datatype Resolver = Resolver(expand: Expander, partitionFilter: Option<PartitionFilter>)

  datatype PlanError =
    | NoSections                 // np.array_split asked for fewer than one group
    | Unresolvable(path: string) // resolving or expanding the path raised
    | NothingLeft(path: string)  // `[0]` of an empty list raised IndexError

  /** What a read task captures: its entries and their sizes, in input order. */
  datatype ReadTask = ReadTask(readPaths: seq<RawPath>, fileSizes: seq<Option<nat>>)

  function PathsOf(pairs: seq<(string, Option<nat>)>): seq<string>
  {
    Map((pair: (string, Option<nat>)) => pair.0, pairs)
  }

  function Filtered(resolver: Resolver, paths: seq<string>): seq<string>
  {
    match resolver.partitionFilter
    case None => paths
    case Some(keep) => keep(paths)
  }

  /** Index of the first pair at or after `from` whose path is in `keep`. */
  function FirstKept(pairs: seq<(string, Option<nat>)>, keep: seq<string>, from: nat): (r: Option<nat>)
    ensures r.Some? ==> from <= r.value < |pairs| && pairs[r.value].0 in keep
    ensures r.Some? ==> forall j :: from <= j < r.value ==> pairs[j].0 !in keep
    ensures r.None? ==> forall j :: from <= j < |pairs| ==> pairs[j].0 !in keep
    decreases |pairs| - from
  {
    if from >= |pairs| then None
    else if pairs[from].0 in keep then Some(from)
    else FirstKept(pairs, keep, from + 1)
  }

  /**
   * Lines 140-145 as written: the filter is applied to the paths only, and
   * the size is taken from the unfiltered list.
   */
  function ResolveLocalAsWritten(raw: string, resolver: Resolver): (r: Result<(RawPath, Option<nat>), PlanError>)
    ensures resolver.expand(raw).None? ==> r == Err(Unresolvable(raw))
    ensures r.Ok? ==> resolver.expand(raw).Some? && resolver.expand(raw).value != []
    ensures r.Ok? ==> r.value.1 == resolver.expand(raw).value[0].1
    ensures r.Ok? ==> Filtered(resolver, PathsOf(resolver.expand(raw).value)) != []
    ensures r.Ok? ==> r.value.0 == Local(Filtered(resolver, PathsOf(resolver.expand(raw).value))[0])
    ensures (resolver.expand(raw).Some? && resolver.expand(raw).value != []
             && Filtered(resolver, PathsOf(resolver.expand(raw).value)) != []) ==> r.Ok?
  {
    match resolver.expand(raw)
    case None => Err(Unresolvable(raw))
    case Some(expanded) =>
      var readPath := Filtered(resolver, PathsOf(expanded));
      if readPath == [] || expanded == [] then Err(NothingLeft(raw))
      else Ok((Local(readPath[0]), expanded[0].1))
  }

  /**
   * Lines 140-145 as intended: the first expanded path the filter keeps,
   * together with that path's own size.
   */
  function ResolveLocal(raw: string, resolver: Resolver): Result<(RawPath, Option<nat>), PlanError>
  {
    match resolver.expand(raw)
    case None => Err(Unresolvable(raw))
    case Some(expanded) =>
      match FirstKept(expanded, Filtered(resolver, PathsOf(expanded)), 0)
      case None => Err(NothingLeft(raw))
      case Some(i) => Ok((Local(expanded[i].0), expanded[i].1))
  }

  /** `pairs[i]` is the first pair whose path is in `keep`. */
  ghost predicate FirstKeptAt(pairs: seq<(string, Option<nat>)>, keep: seq<string>, i: int)
  {
    0 <= i < |pairs| && pairs[i].0 in keep && forall j :: 0 <= j < i ==> pairs[j].0 !in keep
  }

  /**
   * Resolution succeeds exactly when the filter keeps one of the expanded
   * paths; the resolved path is the first one it keeps and the size is the
   * one expansion reported for that path. Without a filter this is the first
   * expanded pair, as in the code as written.
   */
  lemma ResolveLocalPairsSize(raw: string, resolver: Resolver, expanded: seq<(string, Option<nat>)>)
    requires resolver.expand(raw) == Some(expanded)
    ensures ResolveLocal(raw, resolver).Ok? <==>
      exists i :: 0 <= i < |expanded| && expanded[i].0 in Filtered(resolver, PathsOf(expanded))
    ensures ResolveLocal(raw, resolver).Ok? ==>
      exists i :: FirstKeptAt(expanded, Filtered(resolver, PathsOf(expanded)), i) &&
        ResolveLocal(raw, resolver).value == (Local(expanded[i].0), expanded[i].1)
    ensures resolver.partitionFilter.None? && expanded != [] ==>
      ResolveLocal(raw, resolver) == Ok((Local(expanded[0].0), expanded[0].1)) &&
      ResolveLocal(raw, resolver) == ResolveLocalAsWritten(raw, resolver)
  {
    var keep := Filtered(resolver, PathsOf(expanded));
    var first := FirstKept(expanded, keep, 0);
    if first.Some? {
      assert FirstKeptAt(expanded, keep, first.value);
    }
    if resolver.partitionFilter.None? && expanded != [] {
      assert expanded[0].0 == PathsOf(expanded)[0];
      assert expanded[0].0 in keep;
    }
  }

  /**
   * Without a `partition_filter` the corrected resolution is the code as
   * written, error for error.
   */
  lemma ResolveLocalAgreesWithoutFilter(raw: string, resolver: Resolver)
    requires resolver.partitionFilter.None?
    ensures ResolveLocal(raw, resolver) == ResolveLocalAsWritten(raw, resolver)
  {
    match resolver.expand(raw)
    case None =>
    case Some(expanded) =>
      if expanded != [] {
        ResolveLocalPairsSize(raw, resolver, expanded);
      }
  }

  /** A path that cannot be resolved or expanded makes `prepare_read` raise, naming that path. */
  lemma ResolveLocalFails(raw: string, resolver: Resolver)
    requires resolver.expand(raw).None?
    ensures ResolveLocal(raw, resolver) == Err(Unresolvable(raw))
  {
  }

  /**
   * The code as written attaches the size of a path the filter dropped: a
   * directory expanding to d/a (1 byte) and d/b (2 bytes), with a filter that
   * drops d/a, is planned as d/b with size 1.
   */
  lemma AsWrittenMisattributesSize()
    ensures var resolver := Resolver(
        raw => if raw == "d" then Some([("d/a", Some(1)), ("d/b", Some(2))]) else None,
        Some((paths: seq<string>) => if paths == ["d/a", "d/b"] then ["d/b"] else paths));
      && ResolveLocalAsWritten("d", resolver) == Ok((Local("d/b"), Some(1)))
      && ResolveLocal("d", resolver) == Ok((Local("d/b"), Some(2)))
  {
    var expanded: seq<(string, Option<nat>)> := [("d/a", Some(1)), ("d/b", Some(2))];
    assert PathsOf(expanded) == ["d/a", "d/b"];
    assert "d/a" != "d/b";
    assert "d/a" !in ["d/b"];
  }

  /** Lines 136-145: `None` and HTTP entries pass through with unknown size. */
  function ResolveEntry(entry: RawPath, resolver: Resolver): Result<(RawPath, Option<nat>), PlanError>
  {
    match entry
    case Missing => Ok((Missing, None))
    case Http(_) => Ok((entry, None))
    case Local(raw) => ResolveLocal(raw, resolver)
  }

  /** The path an entry resolves to (the entry itself when resolution fails). */
  function ResolvedPath(entry: RawPath, resolver: Resolver): RawPath
  {
    match ResolveEntry(entry, resolver)
    case Ok(pair) => pair.0
    case Err(_) => entry
  }

  /** The size an entry resolves to (unknown when resolution fails). */
  function ResolvedSize(entry: RawPath, resolver: Resolver): Option<nat>
  {
    match ResolveEntry(entry, resolver)
    case Ok(pair) => pair.1
    case Err(_) => None
  }

  function ResolvedPathOf(resolver: Resolver): RawPath -> RawPath
  {
    e => ResolvedPath(e, resolver)
  }

  function ResolvedSizeOf(resolver: Resolver): RawPath -> Option<nat>
  {
    e => ResolvedSize(e, resolver)
  }

  ghost predicate AllResolve(entries: seq<RawPath>, resolver: Resolver)
  {
    forall e :: e in entries ==> ResolveEntry(e, resolver).Ok?
  }

  // ---------------------------------------------------------------------
  // Groups and the plan
  // ---------------------------------------------------------------------

  /** Lines 133-145: the `read_paths` and `file_sizes` lists of one group, or the first error. */
  function ResolveGroup(group: seq<RawPath>, resolver: Resolver): Result<ReadTask, PlanError>
  {
    if group == [] then Ok(ReadTask([], []))
    else
      match ResolveGroup(group[..|group| - 1], resolver)
      case Err(e) => Err(e)
      case Ok(task) =>
        match ResolveEntry(group[|group| - 1], resolver)
        case Err(e) => Err(e)
        case Ok(pair) => Ok(ReadTask(task.readPaths + [pair.0], task.fileSizes + [pair.1]))
  }

  /** Lines 131-157: one task per group with at least one resolved path, in group order. */
  function PlanGroups(groups: seq<seq<RawPath>>, resolver: Resolver): Result<seq<ReadTask>, PlanError>
  {
    if groups == [] then Ok([])
    else
      match PlanGroups(groups[..|groups| - 1], resolver)
      case Err(e) => Err(e)
      case Ok(tasks) =>
        match ResolveGroup(groups[|groups| - 1], resolver)
        case Err(e) => Err(e)
        case Ok(task) => if |task.readPaths| <= 0 then Ok(tasks) else Ok(tasks + [task])
  }

  /** `prepare_read`'s planning: clamp, split, resolve, build the task list. */
  function Plan(parallelism: int, paths: seq<RawPath>, resolver: Resolver): (r: Result<seq<ReadTask>, PlanError>)
    ensures Min(parallelism, |paths|) <= 0 ==> r == Err(NoSections)
    ensures r.Ok? ==> |r.value| <= Min(parallelism, |paths|)
  {
    var p := Min(parallelism, |paths|);
    if p <= 0 then Err(NoSections)
    else
      PlanGroupsAtMost(ArraySplit(paths, p), resolver);
      PlanGroups(ArraySplit(paths, p), resolver)
  }

  /** No more tasks than groups. */
  lemma {:induction false} PlanGroupsAtMost(groups: seq<seq<RawPath>>, resolver: Resolver)
    ensures PlanGroups(groups, resolver).Ok? ==> |PlanGroups(groups, resolver).value| <= |groups|
  {
    if groups != [] {
      PlanGroupsAtMost(groups[..|groups| - 1], resolver);
    }
  }

  function TaskPaths(tasks: seq<ReadTask>): seq<seq<RawPath>>
  {
    Map((t: ReadTask) => t.readPaths, tasks)
  }

  function TaskSizes(tasks: seq<ReadTask>): seq<seq<Option<nat>>>
  {
    Map((t: ReadTask) => t.fileSizes, tasks)
  }

  /**
   * A resolved group lists every entry once, in order: `read_paths` and
   * `file_sizes` have the group's length, `None` and HTTP entries are kept
   * unchanged with unknown size, and a local entry becomes a local path.
   */
  lemma {:induction false} ResolveGroupShape(group: seq<RawPath>, resolver: Resolver)
    requires ResolveGroup(group, resolver).Ok?
    ensures var task := ResolveGroup(group, resolver).value;
      && |task.readPaths| == |task.fileSizes| == |group|
      && task.readPaths == Map(ResolvedPathOf(resolver), group)
      && task.fileSizes == Map(ResolvedSizeOf(resolver), group)
      && (forall k :: 0 <= k < |group| && !group[k].Local? ==>
            task.readPaths[k] == group[k] && task.fileSizes[k] == None)
      && (forall k :: 0 <= k < |group| && group[k].Local? ==> task.readPaths[k].Local?)
  {
    ResolveGroupMaps(group, resolver);
    var task := ResolveGroup(group, resolver).value;
    forall k | 0 <= k < |group|
      ensures !group[k].Local? ==> task.readPaths[k] == group[k] && task.fileSizes[k] == None
      ensures group[k].Local? ==> task.readPaths[k].Local?
    {
      assert task.readPaths[k] == ResolvedPath(group[k], resolver);
      assert task.fileSizes[k] == ResolvedSize(group[k], resolver);
    }
  }

  /** The resolved lists map each entry of the group to what it resolves to. */
  lemma {:induction false} ResolveGroupMaps(group: seq<RawPath>, resolver: Resolver)
    requires ResolveGroup(group, resolver).Ok?
    ensures var task := ResolveGroup(group, resolver).value;
      && task.readPaths == Map(ResolvedPathOf(resolver), group)
      && task.fileSizes == Map(ResolvedSizeOf(resolver), group)
  {
    if group != [] {
      var n := |group|;
      ResolveGroupMaps(group[..n - 1], resolver);
      var before := ResolveGroup(group[..n - 1], resolver).value;
      var task := ResolveGroup(group, resolver).value;
      assert task.readPaths == before.readPaths + [ResolvedPath(group[n - 1], resolver)];
      assert task.fileSizes == before.fileSizes + [ResolvedSize(group[n - 1], resolver)];
      MapSnoc(ResolvedPathOf(resolver), group);
      MapSnoc(ResolvedSizeOf(resolver), group);
    }
  }

  /** A group resolves exactly when each of its entries does. */
  lemma {:induction false} ResolveGroupOk(group: seq<RawPath>, resolver: Resolver)
    ensures ResolveGroup(group, resolver).Ok? <==> AllResolve(group, resolver)
  {
    if group != [] {
      var n := |group|;
      ResolveGroupOk(group[..n - 1], resolver);
      assert group == group[..n - 1] + [group[n - 1]];
      forall e | e in group[..n - 1] ensures e in group { }
    }
  }

  /** A group that hits an error keeps that error whatever follows it. */
  lemma {:induction false} ResolveGroupErrSticks(group: seq<RawPath>, j: nat, resolver: Resolver)
    requires j <= |group| && ResolveGroup(group[..j], resolver).Err?
    ensures ResolveGroup(group, resolver) == ResolveGroup(group[..j], resolver)
    decreases |group| - j
  {
    if j < |group| {
      assert group[..j + 1][..j] == group[..j];
      ResolveGroupErrSticks(group, j + 1, resolver);
    } else {
      assert group[..j] == group;
    }
  }

  lemma {:induction false} PlanGroupsErrSticks(groups: seq<seq<RawPath>>, g: nat, resolver: Resolver)
    requires g <= |groups| && PlanGroups(groups[..g], resolver).Err?
    ensures PlanGroups(groups, resolver) == PlanGroups(groups[..g], resolver)
    decreases |groups| - g
  {
    if g < |groups| {
      assert groups[..g + 1][..g] == groups[..g];
      PlanGroupsErrSticks(groups, g + 1, resolver);
    } else {
      assert groups[..g] == groups;
    }
  }

  /** The plan succeeds exactly when every group resolves. */
  lemma {:induction false} PlanGroupsOk(groups: seq<seq<RawPath>>, resolver: Resolver)
    ensures PlanGroups(groups, resolver).Ok? <==>
      forall i :: 0 <= i < |groups| ==> ResolveGroup(groups[i], resolver).Ok?
  {
    if groups != [] {
      var n := |groups|;
      PlanGroupsOk(groups[..n - 1], resolver);
      assert forall i :: 0 <= i < n - 1 ==> groups[..n - 1][i] == groups[i];
    }
  }

  /** With no empty group, each group gives exactly one task, in group order. */
  lemma {:induction false} PlanGroupsKeepsAll(groups: seq<seq<RawPath>>, resolver: Resolver)
    requires PlanGroups(groups, resolver).Ok?
    requires forall i :: 0 <= i < |groups| ==> groups[i] != []
    ensures var tasks := PlanGroups(groups, resolver).value;
      |tasks| == |groups| &&
      forall i :: 0 <= i < |groups| ==> ResolveGroup(groups[i], resolver) == Ok(tasks[i])
  {
    if groups != [] {
      var n := |groups|;
      assert forall i :: 0 <= i < n - 1 ==> groups[..n - 1][i] == groups[i];
      PlanGroupsKeepsAll(groups[..n - 1], resolver);
      ResolveGroupShape(groups[n - 1], resolver);
    }
  }

  /**
   * Line 128 and line 131: the plan fails only when the clamped parallelism
   * is below one or a local entry cannot be resolved.
   */
  lemma PlanOk(parallelism: int, paths: seq<RawPath>, resolver: Resolver)
    ensures Plan(parallelism, paths, resolver) == Err(NoSections) <==> Min(parallelism, |paths|) <= 0
    ensures Plan(parallelism, paths, resolver).Ok? <==>
      Min(parallelism, |paths|) > 0 && AllResolve(paths, resolver)
  {
    var p := Min(parallelism, |paths|);
    if p > 0 {
      var groups := ArraySplit(paths, p);
      PlanGroupsOk(groups, resolver);
      ArraySplitConcat(paths, p);
      forall i | 0 <= i < p
        ensures ResolveGroup(groups[i], resolver).Ok? <==> AllResolve(groups[i], resolver)
      {
        ResolveGroupOk(groups[i], resolver);
      }
      forall e ensures e in paths <==> exists i :: 0 <= i < |groups| && e in groups[i] {
        FlattenMembership(groups, e);
      }
      PlanGroupsNeverNoSections(groups, resolver);
    }
  }

  lemma {:induction false} PlanGroupsNeverNoSections(groups: seq<seq<RawPath>>, resolver: Resolver)
    ensures PlanGroups(groups, resolver) != Err(NoSections)
  {
    if groups != [] {
      PlanGroupsNeverNoSections(groups[..|groups| - 1], resolver);
      ResolveGroupNeverNoSections(groups[|groups| - 1], resolver);
    }
  }

  lemma {:induction false} ResolveGroupNeverNoSections(group: seq<RawPath>, resolver: Resolver)
    ensures ResolveGroup(group, resolver) != Err(NoSections)
  {
    if group != [] {
      ResolveGroupNeverNoSections(group[..|group| - 1], resolver);
    }
  }

  /**
   * Lines 128-157: a successful plan has exactly `min(parallelism, len(paths))`
   * tasks, none of them empty, each of `n / p` or `n / p + 1` entries with
   * `read_paths` and `file_sizes` of equal length.
   */
  lemma PlanTaskCount(parallelism: int, paths: seq<RawPath>, resolver: Resolver)
    requires Plan(parallelism, paths, resolver).Ok?
    ensures var tasks := Plan(parallelism, paths, resolver).value;
      var p := Min(parallelism, |paths|);
      && p > 0
      && |tasks| == p
      && forall i :: 0 <= i < |tasks| ==>
           && 0 < |tasks[i].readPaths| == |tasks[i].fileSizes|
           && |paths| / p <= |tasks[i].readPaths| <= |paths| / p + 1
  {
    var p := Min(parallelism, |paths|);
    var groups := ArraySplit(paths, p);
    ArraySplitSizes(paths, p);
    PlanGroupsKeepsAll(groups, resolver);
    var tasks := Plan(parallelism, paths, resolver).value;
    forall i | 0 <= i < |tasks|
      ensures 0 < |tasks[i].readPaths| == |tasks[i].fileSizes|
      ensures |paths| / p <= |tasks[i].readPaths| <= |paths| / p + 1
    {
      ResolveGroupShape(groups[i], resolver);
    }
  }

  /**
   * Lines 131-157: reading the tasks' entries in task order gives back the
   * input list, each entry replaced by what it resolved to; `None` and HTTP
   * entries appear unchanged, with unknown size.
   */
  lemma PlanKeepsOrder(parallelism: int, paths: seq<RawPath>, resolver: Resolver)
    requires Plan(parallelism, paths, resolver).Ok?
    ensures var tasks := Plan(parallelism, paths, resolver).value;
      && Flatten(TaskPaths(tasks)) == Map(ResolvedPathOf(resolver), paths)
      && Flatten(TaskSizes(tasks)) == Map(ResolvedSizeOf(resolver), paths)
    ensures var tasks := Plan(parallelism, paths, resolver).value;
      forall k :: 0 <= k < |paths| && !paths[k].Local? ==>
        Flatten(TaskPaths(tasks))[k] == paths[k] && Flatten(TaskSizes(tasks))[k] == None
  {
    var tasks := Plan(parallelism, paths, resolver).value;
    PlanFlattens(parallelism, paths, resolver);
    forall k | 0 <= k < |paths| && !paths[k].Local?
      ensures Flatten(TaskPaths(tasks))[k] == paths[k] && Flatten(TaskSizes(tasks))[k] == None
    {
      assert Flatten(TaskPaths(tasks))[k] == ResolvedPath(paths[k], resolver);
      assert Flatten(TaskSizes(tasks))[k] == ResolvedSize(paths[k], resolver);
    }
  }

  /** Joining the tasks' lists gives every input entry's resolution, in input order. */
  lemma PlanFlattens(parallelism: int, paths: seq<RawPath>, resolver: Resolver)
    requires Plan(parallelism, paths, resolver).Ok?
    ensures var tasks := Plan(parallelism, paths, resolver).value;
      && Flatten(TaskPaths(tasks)) == Map(ResolvedPathOf(resolver), paths)
      && Flatten(TaskSizes(tasks)) == Map(ResolvedSizeOf(resolver), paths)
  {
    var p := Min(parallelism, |paths|);
    var groups := ArraySplit(paths, p);
    var tasks := Plan(parallelism, paths, resolver).value;
    ArraySplitSizes(paths, p);
    ArraySplitConcat(paths, p);
    PlanGroupsKeepsAll(groups, resolver);
    forall i {:trigger groups[i]} | 0 <= i < |groups|
      ensures TaskPaths(tasks)[i] == Map(ResolvedPathOf(resolver), groups[i])
      ensures TaskSizes(tasks)[i] == Map(ResolvedSizeOf(resolver), groups[i])
    {
      ResolveGroupMaps(groups[i], resolver);
    }
    MapFlatten(ResolvedPathOf(resolver), groups, TaskPaths(tasks));
    MapFlatten(ResolvedSizeOf(resolver), groups, TaskSizes(tasks));
  }

  lemma ResolveGroupStep(group: seq<RawPath>, j: nat, resolver: Resolver, task: ReadTask)
    requires j < |group| && ResolveGroup(group[..j], resolver) == Ok(task)
    ensures ResolveGroup(group[..j + 1], resolver) ==
      match ResolveEntry(group[j], resolver)
      case Err(e) => Err(e)
      case Ok(pair) => Ok(ReadTask(task.readPaths + [pair.0], task.fileSizes + [pair.1]))
  {
    assert group[..j + 1][..j] == group[..j];
  }

  lemma PlanGroupsStep(groups: seq<seq<RawPath>>, g: nat, resolver: Resolver, tasks: seq<ReadTask>)
    requires g < |groups| && PlanGroups(groups[..g], resolver) == Ok(tasks)
    ensures PlanGroups(groups[..g + 1], resolver) ==
      match ResolveGroup(groups[g], resolver)
      case Err(e) => Err(e)
      case Ok(task) => if |task.readPaths| <= 0 then Ok(tasks) else Ok(tasks + [task])
  {
    assert groups[..g + 1][..g] == groups[..g];
  }

  /** Lines 133-145: resolve one group's entries in order, stopping at the first error raised. */
  method ResolveRawPaths(rawPaths: seq<RawPath>, resolver: Resolver) returns (r: Result<ReadTask, PlanError>)
    ensures r == ResolveGroup(rawPaths, resolver)
  {
    var readPaths: seq<RawPath> := [];
    var fileSizes: seq<Option<nat>> := [];
    var j := 0;
    while j < |rawPaths|
      invariant 0 <= j <= |rawPaths|
      invariant ResolveGroup(rawPaths[..j], resolver) == Ok(ReadTask(readPaths, fileSizes))
    {
      var rawPath := rawPaths[j];
      ResolveGroupStep(rawPaths, j, resolver, ReadTask(readPaths, fileSizes));
      if rawPath.Missing? || rawPath.Http? {
        readPaths := readPaths + [rawPath];
        fileSizes := fileSizes + [None];
      } else {
        var resolved := ResolveLocal(rawPath.path, resolver);
        if resolved.Err? {
          ResolveGroupErrSticks(rawPaths, j + 1, resolver);
          return Err(resolved.error);
        }
        readPaths := readPaths + [resolved.value.0];
        fileSizes := fileSizes + [resolved.value.1];
      }
      j := j + 1;
    }
    assert rawPaths[..j] == rawPaths;
    return Ok(ReadTask(readPaths, fileSizes));
  }

  /**
   * `prepare_read`, lines 128-159: clamp the parallelism, split the entries,
   * and build `read_tasks` group by group, skipping empty groups and
   * stopping at the first error raised.
   */
  method PrepareRead(parallelism: int, paths: seq<RawPath>, resolver: Resolver)
    returns (r: Result<seq<ReadTask>, PlanError>)
    ensures r == Plan(parallelism, paths, resolver)
  {
    var p := Min(parallelism, |paths|);
    if p <= 0 {
      return Err(NoSections);
    }
    var groups := ArraySplit(paths, p);
    var readTasks: seq<ReadTask> := [];
    var g := 0;
    while g < |groups|
      invariant 0 <= g <= |groups|
      invariant PlanGroups(groups[..g], resolver) == Ok(readTasks)
    {
      PlanGroupsStep(groups, g, resolver, readTasks);
      var resolved := ResolveRawPaths(groups[g], resolver);
      if resolved.Err? {
        PlanGroupsErrSticks(groups, g + 1, resolver);
        return Err(resolved.error);
      }
      var task := resolved.value;
      if |task.readPaths| > 0 {
        readTasks := readTasks + [task];
      }
      g := g + 1;
    }
    assert groups[..g] == groups;
    return Ok(readTasks);
  }
}
