/** The merge-safe autostart snapshot: validated changes laid over every container, in boot order. */
module Autostart {
  import opened Wrappers
  import opened StableSort

  datatype Change = Change(id: string, autoStart: bool, wait: Option<int>)

  datatype Container = Container(id: string, autoStart: bool, autoStartWait: Option<int>, autoStartOrder: Option<int>)

  datatype MergedEntry = MergedEntry(id: string, autoStart: bool, wait: Option<int>, order: Option<int>)

  datatype Entry = Entry(id: string, autoStart: bool, wait: Option<int>)

  // ---------------------------------------------------------------- validation

  datatype Verdict = Accepted | Duplicates(ids: seq<string>) | Unknown(ids: seq<string>)

  function Ids(changes: seq<Change>): seq<string> { Map((change: Change) => change.id, changes) }

  /** The ids from index `k` on that have an earlier occurrence. */
  function Repeats(ids: seq<string>, k: nat): seq<string>
    requires k <= |ids|
    decreases |ids| - k
  {
    if k == |ids| then []
    else (if ids[k] in ids[..k] then [ids[k]] else []) + Repeats(ids, k + 1)
  }

  /** `[...new Set(ids)]`: each value once, at its first place. */
  function Deduplicated(ids: seq<string>): seq<string> {
    if ids == [] then []
    else
      var last := ids[|ids| - 1];
      var before := Deduplicated(ids[..|ids| - 1]);
      if last in before then before else before + [last]
  }

  function Unlisted(ids: seq<string>, known: set<string>): seq<string> {
    if ids == [] then []
    else (if ids[0] in known then [] else [ids[0]]) + Unlisted(ids[1..], known)
  }

  function ContainerIds(containers: seq<Container>): seq<string> {
    Map((container: Container) => container.id, containers)
  }

  function KnownIds(containers: seq<Container>): set<string> { set container <- containers :: container.id }

  function ValidateChanges(changes: seq<Change>, containers: seq<Container>): Verdict {
    var ids := Ids(changes);
    var duplicates := Deduplicated(Repeats(ids, 0));
    if duplicates != [] then Duplicates(duplicates)
    else
      var unknown := Unlisted(ids, KnownIds(containers));
      if unknown != [] then Unknown(unknown) else Accepted
  }

  ghost predicate Twice(ids: seq<string>, id: string) { exists i, j :: 0 <= i < j < |ids| && ids[i] == id == ids[j] }

  ghost predicate Distinct(ids: seq<string>) { forall i, j :: 0 <= i < j < |ids| ==> ids[i] != ids[j] }

  lemma {:induction false} RepeatsAre(ids: seq<string>, k: nat, id: string)
    requires k <= |ids|
    ensures id in Repeats(ids, k) <==> exists j :: k <= j < |ids| && ids[j] == id && id in ids[..j]
    decreases |ids| - k
  {
    if k < |ids| { RepeatsAre(ids, k + 1, id); }
  }

  lemma {:induction false} DeduplicatedAre(ids: seq<string>)
    ensures Distinct(Deduplicated(ids)) && forall id :: id in Deduplicated(ids) <==> id in ids
  {
    if ids != [] {
      var last, before := ids[|ids| - 1], ids[..|ids| - 1];
      DeduplicatedAre(before);
      forall id <- ids ensures id == last || id in before {
        var i :| 0 <= i < |ids| && ids[i] == id;
        assert i < |before| ==> before[i] == id;
      }
    }
  }

  lemma {:induction false} UnlistedAre(ids: seq<string>, known: set<string>)
    ensures forall id :: id in Unlisted(ids, known) <==> id in ids && id !in known
  {
    if ids != [] {
      UnlistedAre(ids[1..], known);
      assert forall id :: id in ids <==> id == ids[0] || id in ids[1..];
    }
  }

  lemma {:induction false} RepeatsAreTwice(ids: seq<string>, id: string)
    ensures id in Repeats(ids, 0) <==> Twice(ids, id)
  {
    RepeatsAre(ids, 0, id);
    if Twice(ids, id) {
      var i, j :| 0 <= i < j < |ids| && ids[i] == id == ids[j];
      assert ids[..j][i] == id;
    }
    if id in Repeats(ids, 0) {
      var j :| 0 <= j < |ids| && ids[j] == id && id in ids[..j];
      var i :| 0 <= i < j && ids[..j][i] == id;
      assert ids[i] == id == ids[j];
    }
  }

  /** Accepted means distinct and known; a refusal names exactly the offending ids, repeated ones first. */
  lemma {:induction false} ValidationIsExact(changes: seq<Change>, containers: seq<Container>)
    ensures match ValidateChanges(changes, containers)
            case Accepted => Distinct(Ids(changes)) && (forall id <- Ids(changes) :: id in KnownIds(containers))
            case Duplicates(ids) => ids != [] && Distinct(ids) && forall id :: id in ids <==> Twice(Ids(changes), id)
            case Unknown(ids) =>
              ids != [] && Distinct(Ids(changes)) && forall id :: id in ids <==> id in Ids(changes) && id !in KnownIds(containers)
  {
    var ids := Ids(changes);
    forall id ensures id in Repeats(ids, 0) <==> Twice(ids, id) { RepeatsAreTwice(ids, id); }
    DeduplicatedAre(Repeats(ids, 0));
    UnlistedAre(ids, KnownIds(containers));
    var duplicates := Deduplicated(Repeats(ids, 0));
    if duplicates == [] {
      forall i, j | 0 <= i < j < |ids| ensures ids[i] != ids[j] {
        assert ids[i] !in duplicates && !Twice(ids, ids[i]);
      }
    }
  }

  // ---------------------------------------------------------------- the snapshot

  /** `new Map(changes…).get(id)`: a later change to the same id would win. */
  function ChangeById(changes: seq<Change>, id: string): Option<Change> {
    if changes == [] then None
    else if changes[|changes| - 1].id == id then Some(changes[|changes| - 1])
    else ChangeById(changes[..|changes| - 1], id)
  }

  function OrElse<T>(first: Option<T>, second: Option<T>): Option<T> { if first.Some? then first else second }

  function MergeEntry(container: Container, change: Option<Change>): MergedEntry {
    match change
    case Some(c) => MergedEntry(container.id, c.autoStart, OrElse(c.wait, container.autoStartWait), container.autoStartOrder)
    case None => MergedEntry(container.id, container.autoStart, container.autoStartWait, container.autoStartOrder)
  }

  /** Ascending, unordered entries last and tied with each other. */
  function CompareOrders(a: Option<int>, b: Option<int>): int {
    match a
    case None => if b == None then 0 else 1
    case Some(x) => match b case None => -1 case Some(y) => x - y
  }

  function CompareByOrder(a: MergedEntry, b: MergedEntry): int { CompareOrders(a.order, b.order) }

  function BuildEntries(containers: seq<Container>, changes: seq<Change>): seq<Entry> {
    var merged := Map((container: Container) => MergeEntry(container, ChangeById(changes, container.id)), containers);
    Map((entry: MergedEntry) => Entry(entry.id, entry.autoStart, entry.wait), Sort(CompareByOrder, merged))
  }

  /** What the snapshot should say about one container. */
  ghost predicate Describes(entry: Entry, container: Container, changes: seq<Change>) {
    && entry.id == container.id
    && (forall change <- changes | change.id == container.id ::
          entry.autoStart == change.autoStart
          && entry.wait == if change.wait.Some? then change.wait else container.autoStartWait)
    && ((forall change <- changes :: change.id != container.id) ==>
          entry.autoStart == container.autoStart && entry.wait == container.autoStartWait)
  }

  /** Ascending, and nothing ordered after something unordered. */
  ghost predicate InBootOrder(containers: seq<Container>) {
    forall i, j | 0 <= i < j < |containers| && containers[j].autoStartOrder.Some? ::
      containers[i].autoStartOrder.Some? && containers[i].autoStartOrder.value <= containers[j].autoStartOrder.value
  }

  /** The containers at one place in the boot order (or at none), as they stand. */
  function WithOrder(containers: seq<Container>, order: Option<int>): seq<Container> {
    if containers == [] then []
    else (if containers[0].autoStartOrder == order then [containers[0]] else []) + WithOrder(containers[1..], order)
  }

  function ContainerOrder(a: Container, b: Container): int { CompareOrders(a.autoStartOrder, b.autoStartOrder) }

  lemma {:induction false} OrdersAreConsistent()
    ensures Consistent(ContainerOrder)
  {
  }

  lemma {:induction false} SortedIsInBootOrder(containers: seq<Container>)
    requires Sorted(ContainerOrder, containers)
    ensures InBootOrder(containers)
  {
    forall i, j | 0 <= i < j < |containers| ensures ContainerOrder(containers[i], containers[j]) <= 0 {}
  }

  lemma {:induction false} TiesShareTheirOrder(containers: seq<Container>, like: Container)
    ensures Ties(ContainerOrder, containers, like) == WithOrder(containers, like.autoStartOrder)
  {
    if containers != [] { TiesShareTheirOrder(containers[1..], like); }
  }

  lemma {:induction false} ChangeByIdFinds(changes: seq<Change>, id: string)
    ensures match ChangeById(changes, id)
            case Some(change) => change in changes && change.id == id
            case None => forall change <- changes :: change.id != id
  {
    if changes != [] {
      var last, before := changes[|changes| - 1], changes[..|changes| - 1];
      ChangeByIdFinds(before, id);
      forall change <- changes ensures change == last || change in before {
        var i :| 0 <= i < |changes| && changes[i] == change;
        assert i < |before| ==> before[i] == change;
      }
    }
  }

  lemma {:induction false} SameIdSameChange(changes: seq<Change>, a: Change, b: Change)
    requires Distinct(Ids(changes)) && a in changes && b in changes && a.id == b.id
    ensures a == b
  {
    var i :| 0 <= i < |changes| && changes[i] == a;
    var j :| 0 <= j < |changes| && changes[j] == b;
    assert Ids(changes)[i] == a.id && Ids(changes)[j] == b.id;
  }

  lemma {:induction false} MergeDescribes(container: Container, changes: seq<Change>)
    requires Distinct(Ids(changes))
    ensures var e := MergeEntry(container, ChangeById(changes, container.id));
            Describes(Entry(e.id, e.autoStart, e.wait), container, changes)
  {
    ChangeByIdFinds(changes, container.id);
    forall change <- changes | change.id == container.id
      ensures ChangeById(changes, container.id) == Some(change)
    {
      SameIdSameChange(changes, ChangeById(changes, container.id).value, change);
    }
  }

  /** Sorting the merged entries is sorting the containers: no change can move an entry. */
  lemma {:induction false} EntriesFollowTheContainers(containers: seq<Container>, changes: seq<Change>)
    ensures var arranged := Sort(ContainerOrder, containers);
            |BuildEntries(containers, changes)| == |arranged|
            && forall i :: 0 <= i < |arranged| ==>
                 var e := MergeEntry(arranged[i], ChangeById(changes, arranged[i].id));
                 BuildEntries(containers, changes)[i] == Entry(e.id, e.autoStart, e.wait)
  {
    var merge := (container: Container) => MergeEntry(container, ChangeById(changes, container.id));
    SortCommutesWithMap(merge, ContainerOrder, CompareByOrder, containers);
  }

  /**
   The resubmitted snapshot is a stable rearrangement of all the containers,
   ascending by boot order with unordered ones last, each entry saying what its
   change asks for or, without one, what the container already has.
   */
  lemma {:induction false} SnapshotIsStableAndComplete(containers: seq<Container>, changes: seq<Change>)
    returns (arranged: seq<Container>)
    requires ValidateChanges(changes, containers) == Accepted
    ensures multiset(arranged) == multiset(containers) && InBootOrder(arranged)
    ensures forall order :: WithOrder(arranged, order) == WithOrder(containers, order)
    ensures |BuildEntries(containers, changes)| == |arranged|
    ensures forall i :: 0 <= i < |arranged| ==> Describes(BuildEntries(containers, changes)[i], arranged[i], changes)
  {
    arranged := Sort(ContainerOrder, containers);
    ValidationIsExact(changes, containers);
    OrdersAreConsistent();
    SortIsStable(ContainerOrder, containers);
    SortedIsInBootOrder(arranged);
    forall order ensures WithOrder(arranged, order) == WithOrder(containers, order) {
      var like := Container("", false, None, order);
      TiesShareTheirOrder(arranged, like);
      TiesShareTheirOrder(containers, like);
    }
    EntriesFollowTheContainers(containers, changes);
    forall i | 0 <= i < |arranged| ensures Describes(BuildEntries(containers, changes)[i], arranged[i], changes) {
      MergeDescribes(arranged[i], changes);
    }
  }

  /** With distinct containers the snapshot has exactly one entry for each, and the description fixes it. */
  lemma {:induction false} EveryContainerHasItsEntry(containers: seq<Container>, changes: seq<Change>, container: Container)
    returns (at: nat)
    requires ValidateChanges(changes, containers) == Accepted && container in containers
    requires Distinct(ContainerIds(containers))
    ensures var entries := BuildEntries(containers, changes);
            at < |entries| && Describes(entries[at], container, changes)
            && forall i :: 0 <= i < |entries| && entries[i].id == container.id ==> i == at
  {
    var arranged := SnapshotIsStableAndComplete(containers, changes);
    assert container in multiset(arranged);
    at :| 0 <= at < |arranged| && arranged[at] == container;
    var entries := BuildEntries(containers, changes);
    forall i | 0 <= i < |entries| && entries[i].id == container.id ensures i == at {
      assert arranged[i] in multiset(arranged) && Describes(entries[i], arranged[i], changes);
      SameIdSameContainer(containers, arranged[i], container);
      if i != at { TwoPlacesCountTwice(arranged, i, at); }
      DistinctCountOnce(containers, container);
    }
  }

  lemma {:induction false} SameIdSameContainer(containers: seq<Container>, a: Container, b: Container)
    requires Distinct(ContainerIds(containers)) && a in containers && b in containers && a.id == b.id
    ensures a == b
  {
    var i :| 0 <= i < |containers| && containers[i] == a;
    var j :| 0 <= j < |containers| && containers[j] == b;
    assert ContainerIds(containers)[i] == a.id && ContainerIds(containers)[j] == b.id;
  }

  lemma {:induction false} DistinctCountOnce(containers: seq<Container>, container: Container)
    requires Distinct(ContainerIds(containers))
    ensures multiset(containers)[container] <= 1
  {
    if containers != [] {
      var first, rest := containers[0], containers[1..];
      assert containers == [first] + rest;
      forall i, j | 0 <= i < j < |rest| ensures ContainerIds(rest)[i] != ContainerIds(rest)[j] {
        assert ContainerIds(rest)[i] == ContainerIds(containers)[i + 1];
        assert ContainerIds(rest)[j] == ContainerIds(containers)[j + 1];
      }
      DistinctCountOnce(rest, container);
      forall j | 0 <= j < |rest| ensures rest[j] != first {
        assert ContainerIds(containers)[0] != ContainerIds(containers)[j + 1];
      }
    }
  }

  lemma {:induction false} TwoPlacesCountTwice<T>(s: seq<T>, i: nat, j: nat)
    requires i < |s| && j < |s| && i != j && s[i] == s[j]
    ensures multiset(s)[s[i]] >= 2
  {
    var low, high := if i < j then i else j, if i < j then j else i;
    assert s == s[..high] + s[high..];
    assert s[..high][low] == s[i] && s[high..][0] == s[i];
    assert multiset(s[..high])[s[i]] >= 1 && multiset(s[high..])[s[i]] >= 1;
  }

  /** Merge safety: next to resubmitting with no change at all, only listed ids differ, and nobody moves. */
  lemma {:induction false} UnlistedContainersAreUntouched(containers: seq<Container>, changes: seq<Change>, i: nat)
    requires i < |containers|
    ensures var entries, asIs := BuildEntries(containers, changes), BuildEntries(containers, []);
            i < |entries| && i < |asIs| && entries[i].id == asIs[i].id
            && (entries[i].id !in Ids(changes) ==> entries[i] == asIs[i])
  {
    EntriesFollowTheContainers(containers, changes);
    EntriesFollowTheContainers(containers, []);
    var arranged := Sort(ContainerOrder, containers);
    assert |arranged| == |multiset(arranged)| == |multiset(containers)| == |containers|;
    var id := arranged[i].id;
    ChangeByIdFinds(changes, id);
    if ChangeById(changes, id).Some? {
      var j :| 0 <= j < |changes| && changes[j] == ChangeById(changes, id).value;
      assert Ids(changes)[j] == id;
    }
  }
}
