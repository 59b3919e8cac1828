/**
 * The family-data store (src/store/useGenogramStore.ts): the people, the key
 * counter, the selection, and an undo/redo history of `{familyData, nextKey}`
 * snapshots. Every action is a transition of `StoreState` (`Apply`); the class
 * `GenogramStore` holds the same five fields and its methods update them as
 * the actions' `set` calls do.
 */
module Store {
  import opened Types

  /** One history entry: `{ familyData, nextKey }`. */
  datatype Snapshot = Snapshot(familyData: seq<Person>, nextKey: int)

  datatype StoreState = StoreState(
    familyData: seq<Person>,
    nextKey: int,
    selectedPersonKeys: seq<int>,
    past: seq<Snapshot>,
    future: seq<Snapshot>)

  /** The store as created: nobody, key counter 1, no selection, no history. */
  const Initial := StoreState([], 1, [], [], [])

  /**
   * `Partial<Person>`: for each field, absent (`None`) or the new value. For
   * an optional field the new value may itself be `None` (`null`).
   */
  datatype PersonUpdate = PersonUpdate(
    name: Option<string>,
    age: Option<Option<int>>,
    gender: Option<Gender>,
    deceased: Option<bool>,
    father: Option<Option<int>>,
    mother: Option<Option<int>>,
    spouse: Option<Option<int>>,
    relationStatus: Option<Option<RelationStatus>>,
    attributes: Option<seq<AttributeMarker>>,
    position: Option<Option<Point>>,
    isAdopted: Option<bool>,
    isFoster: Option<bool>,
    birthStatus: Option<Option<BirthStatus>>,
    twinGroup: Option<Option<int>>,
    isIdenticalTwin: Option<bool>)

  /** The store's actions, with their arguments. */
  datatype Action =
    | AddAction(personData: Person)
    | UpdateAction(key: int, updates: PersonUpdate)
    | DeleteAction(key: int)
    | SelectAction(selected: Option<int>)
    | ToggleAction(key: int)
    | ResetAction
    | ImportAction(data: GenogramData)
    | ClearPositionsAction
    | UndoAction
    | RedoAction

  /** The actions that change the people and so save history first. */
  predicate Mutating(a: Action) {
    a.AddAction? || a.UpdateAction? || a.DeleteAction? || a.ResetAction? || a.ImportAction? || a.ClearPositionsAction?
  }

  // ---------------------------------------------------------------- history

  /** `set({ past: [...past, { familyData, nextKey }], future: [] })`. */
  function Saved(s: StoreState): StoreState {
    s.(past := s.past + [Snapshot(s.familyData, s.nextKey)], future := [])
  }

  /** `undo`: nothing without history; else the last snapshot comes back and the present goes to the front of `future`. */
  function Undone(s: StoreState): StoreState {
    if |s.past| == 0 then s
    else
      var previous := s.past[|s.past| - 1];
      StoreState(previous.familyData, previous.nextKey, [],
                 s.past[..|s.past| - 1], [Snapshot(s.familyData, s.nextKey)] + s.future)
  }

  /** `redo`: nothing without a future; else its first snapshot comes back and the present goes to the end of `past`. */
  function Redone(s: StoreState): StoreState {
    if |s.future| == 0 then s
    else
      var next := s.future[0];
      StoreState(next.familyData, next.nextKey, [],
                 s.past + [Snapshot(s.familyData, s.nextKey)], s.future[1..])
  }

  /** Undo on an empty history and redo on an empty future change nothing. */
  lemma UndoRedoWithoutHistory(s: StoreState)
    ensures |s.past| == 0 ==> Undone(s) == s
    ensures |s.future| == 0 ==> Redone(s) == s
  {
  }

  /** Undo moves exactly one snapshot from `past` to `future`, and redo moves it back: people and key counter are restored. */
  lemma RedoAfterUndo(s: StoreState)
    requires |s.past| > 0
    ensures |Undone(s).past| == |s.past| - 1 && |Undone(s).future| == |s.future| + 1
    ensures Undone(s).familyData == s.past[|s.past| - 1].familyData && Undone(s).nextKey == s.past[|s.past| - 1].nextKey
    ensures Redone(Undone(s)) == s.(selectedPersonKeys := [])
  {
    var u := Undone(s);
    assert u.future[1..] == s.future;
    assert u.past + [Snapshot(u.familyData, u.nextKey)] == s.past;
  }

  /** Redo followed by undo restores the present as well. */
  lemma UndoAfterRedo(s: StoreState)
    requires |s.future| > 0
    ensures |Redone(s).past| == |s.past| + 1 && |Redone(s).future| == |s.future| - 1
    ensures Redone(s).familyData == s.future[0].familyData && Redone(s).nextKey == s.future[0].nextKey
    ensures Undone(Redone(s)) == s.(selectedPersonKeys := [])
  {
    var r := Redone(s);
    assert r.past[..|r.past| - 1] == s.past;
    assert [Snapshot(r.familyData, r.nextKey)] + r.future == s.future;
  }

  // ---------------------------------------------------------------- addPerson

  /** The records with key `k` get partner `partner` and status `status`; everyone else is kept. */
  function WithSpouseLink(data: seq<Person>, k: int, partner: int, status: Option<RelationStatus>): (r: seq<Person>)
    ensures |r| == |data| && forall i :: 0 <= i < |data| ==> r[i].key == data[i].key
  {
    seq(|data|, i requires 0 <= i < |data| =>
      if data[i].key == k then data[i].(spouse := Some(partner), relationStatus := status) else data[i])
  }

  /** `addPerson`'s new people: the named spouse linked back, then the new person with the new key appended. */
  function AddedFamily(data: seq<Person>, personData: Person, newKey: int): seq<Person> {
    var newPerson := personData.(key := newKey);
    (if Truthy(newPerson.spouse) then WithSpouseLink(data, newPerson.spouse.value, newKey, newPerson.relationStatus) else data)
    + [newPerson]
  }

  /**
   * `addPerson` appends the person with the prior key counter as key, moves
   * the counter on by one, clears the selection, and saves history.
   */
  lemma AddPersonAppends(s: StoreState, personData: Person)
    ensures var r := Apply(s, AddAction(personData));
      |r.familyData| == |s.familyData| + 1 &&
      r.familyData[|s.familyData|] == personData.(key := s.nextKey) &&
      r.nextKey == s.nextKey + 1 && r.selectedPersonKeys == [] &&
      r.past == s.past + [Snapshot(s.familyData, s.nextKey)] && r.future == []
  {
  }

  /**
   * The spouse the new person names (a truthy key) now names the new person,
   * with the new person's relation status; no one else changes.
   */
  lemma AddPersonLinksSpouse(data: seq<Person>, personData: Person, newKey: int)
    ensures var r := AddedFamily(data, personData, newKey);
      forall i :: 0 <= i < |data| ==>
        if Truthy(personData.spouse) && data[i].key == personData.spouse.value then
          r[i] == data[i].(spouse := Some(newKey), relationStatus := personData.relationStatus)
        else r[i] == data[i]
  {
  }

  /** Adding a person as the spouse of someone already married leaves the former partner naming that someone. */
  lemma AddLeavesFormerPartnerLink()
    ensures var p1 := Person(1, "a", None, Male, false, None, None, Some(2), Some(Married), [], None, false, false, None, None, false);
      var p2 := Person(2, "b", None, Female, false, None, None, Some(1), Some(Married), [], None, false, false, None, None, false);
      var p3 := Person(0, "c", None, Male, false, None, None, Some(2), Some(Married), [], None, false, false, None, None, false);
      var r := AddedFamily([p1, p2], p3, 3);
      |r| == 3 && r[1].spouse == Some(3) && r[2].key == 3 && r[2].spouse == Some(2) && r[0].spouse == Some(2)
  {
  }

  /**
   * When every key is below the counter, the new key is used by no one else,
   * and every key stays below the moved-on counter.
   */
  lemma AddPersonFreshKey(s: StoreState, personData: Person)
    requires forall p :: p in s.familyData ==> p.key < s.nextKey
    ensures var r := Apply(s, AddAction(personData));
      s.nextKey !in KeySet(s.familyData) &&
      (forall i :: 0 <= i < |s.familyData| ==> r.familyData[i].key == s.familyData[i].key) &&
      forall p :: p in r.familyData ==> p.key < r.nextKey
  {
    var r := Apply(s, AddAction(personData));
    forall p | p in r.familyData ensures p.key < r.nextKey {
      var i :| 0 <= i < |r.familyData| && r.familyData[i] == p;
      if i < |s.familyData| {
        assert s.familyData[i] in s.familyData;
      }
    }
    forall i | 0 <= i < |s.familyData| ensures s.familyData[i].key != s.nextKey {
      assert s.familyData[i] in s.familyData;
    }
  }

  // ---------------------------------------------------------------- updatePerson

  function Pick<T>(o: Option<T>, current: T): T {
    if o.Some? then o.value else current
  }

  /** `{ ...p, ...updates }`: every field the update names takes the new value. */
  function Merge(p: Person, u: PersonUpdate): Person {
    p.(name := Pick(u.name, p.name), age := Pick(u.age, p.age), gender := Pick(u.gender, p.gender),
       deceased := Pick(u.deceased, p.deceased), father := Pick(u.father, p.father),
       mother := Pick(u.mother, p.mother), spouse := Pick(u.spouse, p.spouse),
       relationStatus := Pick(u.relationStatus, p.relationStatus), attributes := Pick(u.attributes, p.attributes),
       position := Pick(u.position, p.position), isAdopted := Pick(u.isAdopted, p.isAdopted),
       isFoster := Pick(u.isFoster, p.isFoster), birthStatus := Pick(u.birthStatus, p.birthStatus),
       twinGroup := Pick(u.twinGroup, p.twinGroup), isIdenticalTwin := Pick(u.isIdenticalTwin, p.isIdenticalTwin))
  }

  /** An updated optional field as a plain value: absent and `null` are both no value. */
  function Given(o: Option<Option<int>>): Option<int> {
    if o.Some? then o.value else None
  }

  /** `familyData.find(p => p.key === key)`: the first person with the key. */
  function FindByKey(data: seq<Person>, key: int): (r: Option<Person>)
    ensures r.None? <==> key !in KeySet(data)
    ensures r.Some? ==> exists i :: 0 <= i < |data| && data[i] == r.value && data[i].key == key &&
                                   forall j :: 0 <= j < i ==> data[j].key != key
  {
    if data == [] then None
    else if data[0].key == key then
      assert data[0] == data[0];
      Some(data[0])
    else
      var r := FindByKey(data[1..], key);
      assert KeySet(data) == {data[0].key} + KeySet(data[1..]) by {
        forall k | k in KeySet(data) ensures k in {data[0].key} + KeySet(data[1..]) {
          var i :| 0 <= i < |data| && data[i].key == k;
          if i > 0 { assert data[1..][i - 1].key == k; }
        }
      }
      if r.Some? then
        var i :| 0 <= i < |data[1..]| && data[1..][i] == r.value && data[1..][i].key == key &&
          forall j :: 0 <= j < i ==> data[1..][j].key != key;
        assert data[i + 1] == r.value;
        assert forall j :: 0 <= j < i + 1 ==> data[j].key != key by {
          forall j | 0 <= j < i + 1 ensures data[j].key != key {
            if j > 0 { assert data[j] == data[1..][j - 1]; }
          }
        }
        r
      else r
  }

  /** `state.familyData.filter(p => p.father === parentKey || p.mother === parentKey)`. */
  function ChildrenOfKey(data: seq<Person>, parentKey: int): (r: seq<Person>)
    ensures forall p :: p in r <==> p in data && (p.father == Some(parentKey) || p.mother == Some(parentKey))
  {
    if data == [] then []
    else
      var n := |data| - 1;
      assert data == data[..n] + [data[n]];
      ChildrenOfKey(data[..n], parentKey) +
      (if data[n].father == Some(parentKey) || data[n].mother == Some(parentKey) then [data[n]] else [])
  }

  /**
   * `isDescendant(parentKey, targetKey)` searching at most `fuel` generations
   * down: some child of `parentKey` is the target or has the target below it.
   */
  function Descends(data: seq<Person>, parentKey: int, targetKey: int, fuel: nat): bool
    decreases fuel
  {
    fuel > 0 &&
    exists c :: c in ChildrenOfKey(data, parentKey) && (c.key == targetKey || Descends(data, c.key, targetKey, fuel - 1))
  }

  /** `b`'s record names `a` as father or mother. */
  ghost predicate ParentLink(data: seq<Person>, a: int, b: int) {
    exists p :: p in data && p.key == b && (p.father == Some(a) || p.mother == Some(a))
  }

  /** A chain of keys, each a parent of the next. */
  ghost predicate IsLineage(data: seq<Person>, path: seq<int>) {
    |path| >= 2 && forall i :: 0 <= i < |path| - 1 ==> ParentLink(data, path[i], path[i + 1])
  }

  /** The search only answers yes for a real line of descent of at most `fuel` generations. */
  lemma {:induction false} DescendsHasLineage(data: seq<Person>, a: int, b: int, fuel: nat)
    requires Descends(data, a, b, fuel)
    ensures exists path :: IsLineage(data, path) && path[0] == a && path[|path| - 1] == b && |path| <= fuel + 1
    decreases fuel
  {
    var c :| c in ChildrenOfKey(data, a) && (c.key == b || Descends(data, c.key, b, fuel - 1));
    assert ParentLink(data, a, c.key);
    if c.key == b {
      var path := [a, b];
      assert IsLineage(data, path);
    } else {
      DescendsHasLineage(data, c.key, b, fuel - 1);
      var rest :| IsLineage(data, rest) && rest[0] == c.key && rest[|rest| - 1] == b && |rest| <= fuel;
      PrependLineage(data, a, rest);
    }
  }

  /** A parent of a lineage's first key extends it by one generation. */
  lemma PrependLineage(data: seq<Person>, a: int, rest: seq<int>)
    requires IsLineage(data, rest) && ParentLink(data, a, rest[0])
    ensures IsLineage(data, [a] + rest)
  {
    var path := [a] + rest;
    forall i | 0 <= i < |path| - 1 ensures ParentLink(data, path[i], path[i + 1]) {
      if i > 0 {
        assert path[i] == rest[i - 1] && path[i + 1] == rest[i];
      }
    }
  }

  /** Every line of descent of at most `fuel` generations is found. */
  lemma {:induction false} LineageDescends(data: seq<Person>, path: seq<int>, fuel: nat)
    requires IsLineage(data, path) && |path| <= fuel + 1
    ensures Descends(data, path[0], path[|path| - 1], fuel)
    decreases |path|
  {
    assert ParentLink(data, path[0], path[1]);
    var c :| c in data && c.key == path[1] && (c.father == Some(path[0]) || c.mother == Some(path[0]));
    assert c in ChildrenOfKey(data, path[0]);
    if |path| > 2 {
      var rest := path[1..];
      assert IsLineage(data, rest) by {
        forall i | 0 <= i < |rest| - 1 ensures ParentLink(data, rest[i], rest[i + 1]) {
          assert ParentLink(data, path[i + 1], path[i + 2]);
        }
      }
      LineageDescends(data, rest, fuel - 1);
      assert Descends(data, c.key, path[|path| - 1], fuel - 1);
    }
  }

  /**
   * One generation per record is enough: every line of descent, however long, is found by
   * the search bounded by `|data|`, because a longer line repeats a key and can be cut short.
   */
  lemma LineageWithinRecords(data: seq<Person>, path: seq<int>)
    requires IsLineage(data, path)
    ensures Descends(data, path[0], path[|path| - 1], |data|)
  {
    ShortLineage(data, path);
    var p :| IsLineage(data, p) && p[0] == path[0] && p[|p| - 1] == path[|path| - 1] && |p| <= |data| + 1;
    LineageDescends(data, p, |data|);
  }

  /** The search bounded by `|data|` answers yes exactly when a line of descent joins the two keys. */
  lemma DescendsIffLineage(data: seq<Person>, a: int, b: int)
    ensures Descends(data, a, b, |data|) <==> exists path :: IsLineage(data, path) && path[0] == a && path[|path| - 1] == b
  {
    if Descends(data, a, b, |data|) {
      DescendsHasLineage(data, a, b, |data|);
    }
    if exists path :: IsLineage(data, path) && path[0] == a && path[|path| - 1] == b {
      var path :| IsLineage(data, path) && path[0] == a && path[|path| - 1] == b;
      LineageWithinRecords(data, path);
    }
  }

  /** A line of descent can be shortened to one of at most `|data|` generations with the same ends. */
  lemma {:induction false} ShortLineage(data: seq<Person>, path: seq<int>)
    requires IsLineage(data, path)
    ensures exists p :: IsLineage(data, p) && p[0] == path[0] && p[|p| - 1] == path[|path| - 1] && |p| <= |data| + 1
    decreases |path|
  {
    if |path| > |data| + 1 {
      var tail := path[1..];
      forall x | x in tail ensures x in KeySet(data) {
        var k :| 0 <= k < |tail| && tail[k] == x;
        assert ParentLink(data, path[k], path[k + 1]);
        var q :| q in data && q.key == path[k + 1] && (q.father == Some(path[k]) || q.mother == Some(path[k]));
        var n :| 0 <= n < |data| && data[n] == q;
      }
      KeySetSize(data);
      RepeatedKey(tail, KeySet(data));
      var i, j :| 0 <= i < j < |tail| && tail[i] == tail[j];
      CutLineage(data, path, i + 1, j + 1);
      ShortLineage(data, path[..i + 1] + path[j + 1..]);
    }
  }

  /** Cutting a line of descent between two occurrences of the same key leaves a line with the same ends. */
  lemma CutLineage(data: seq<Person>, path: seq<int>, a: int, b: int)
    requires IsLineage(data, path) && 1 <= a < b < |path| && path[a] == path[b]
    ensures IsLineage(data, path[..a] + path[b..])
    ensures (path[..a] + path[b..])[0] == path[0]
    ensures (path[..a] + path[b..])[|path[..a] + path[b..]| - 1] == path[|path| - 1]
    ensures |path[..a] + path[b..]| < |path|
  {
    var cut := path[..a] + path[b..];
    forall k | 0 <= k < |cut| - 1 ensures ParentLink(data, cut[k], cut[k + 1]) {
      if k + 1 < a {
        assert cut[k] == path[k] && cut[k + 1] == path[k + 1];
        assert ParentLink(data, path[k], path[k + 1]);
      } else if k + 1 == a {
        assert cut[k] == path[a - 1] && cut[k + 1] == path[b];
        assert ParentLink(data, path[a - 1], path[a]);
      } else {
        assert cut[k] == path[k - a + b] && cut[k + 1] == path[k + 1 - a + b];
        assert ParentLink(data, path[k - a + b], path[k - a + b + 1]);
      }
    }
  }

  /** A record list has at most as many distinct keys as records. */
  lemma {:induction false} KeySetSize(data: seq<Person>)
    ensures |KeySet(data)| <= |data|
    decreases |data|
  {
    if data != [] {
      var init := data[..|data| - 1];
      KeySetSize(init);
      assert KeySet(data) == KeySet(init) + {data[|data| - 1].key} by {
        forall x | x in KeySet(data) ensures x in KeySet(init) + {data[|data| - 1].key} {
          var n :| 0 <= n < |data| && data[n].key == x;
          if n < |data| - 1 {
            assert init[n] == data[n];
          }
        }
        forall x | x in KeySet(init) ensures x in KeySet(data) {
          var n :| 0 <= n < |init| && init[n].key == x;
          assert data[n] == init[n];
        }
      }
    }
  }

  /** Pigeonhole: a sequence drawn from a smaller set repeats an element. */
  lemma RepeatedKey(s: seq<int>, keys: set<int>)
    requires forall x :: x in s ==> x in keys
    requires |s| > |keys|
    ensures exists i, j :: 0 <= i < j < |s| && s[i] == s[j]
  {
    if forall i, j :: 0 <= i < j < |s| ==> s[i] != s[j] {
      DistinctSize(s);
      SubsetSize((set x | x in s), keys);
      assert false;
    }
  }

  /** A sequence without repeats has as many distinct elements as positions. */
  lemma {:induction false} DistinctSize(s: seq<int>)
    requires forall i, j :: 0 <= i < j < |s| ==> s[i] != s[j]
    ensures |set x | x in s| == |s|
    decreases |s|
  {
    if s != [] {
      var init := s[..|s| - 1];
      DistinctSize(init);
      assert (set x | x in s) == (set x | x in init) + {s[|s| - 1]};
      assert s[|s| - 1] !in init;
    }
  }

  lemma SubsetSize(small: set<int>, large: set<int>)
    requires small <= large
    ensures |small| <= |large|
  {
    var rest := large - small;
    assert large == small + rest && small * rest == {};
  }

  /** `isDescendant`'s loop over the children, with early returns, computes `Descends`. */
  method IsDescendant(data: seq<Person>, parentKey: int, targetKey: int, fuel: nat) returns (r: bool)
    ensures r == Descends(data, parentKey, targetKey, fuel)
    decreases fuel
  {
    if fuel == 0 {
      return false;
    }
    var children := ChildrenOfKey(data, parentKey);
    for i := 0 to |children|
      invariant forall j :: 0 <= j < i ==>
        children[j].key != targetKey && !Descends(data, children[j].key, targetKey, fuel - 1)
    {
      var child := children[i];
      if child.key == targetKey {
        return true;
      }
      var below := IsDescendant(data, child.key, targetKey, fuel - 1);
      if below {
        return true;
      }
    }
    return false;
  }

  /** How `updatePerson` ends: one of its three rejections, or the new people. */
  datatype UpdateOutcome = NotFound | SelfParent | CircularParent | Applied(familyData: seq<Person>)

  /** The update would make the person their own father or mother. */
  predicate SetsSelfAsParent(key: int, u: PersonUpdate) {
    u.father == Some(Some(key)) || u.mother == Some(Some(key))
  }

  /** The update's (truthy) new father or mother is a descendant of the person. */
  predicate SetsDescendantAsParent(data: seq<Person>, key: int, u: PersonUpdate) {
    (Truthy(Given(u.father)) && Descends(data, key, Given(u.father).value, |data|)) ||
    (Truthy(Given(u.mother)) && Descends(data, key, Given(u.mother).value, |data|))
  }

  /** The records with key `oldSpouse` that name `key` as spouse lose the spouse and fall back to 'married'. */
  function Released(data: seq<Person>, oldSpouse: int, key: int): (r: seq<Person>)
    ensures |r| == |data| && forall i :: 0 <= i < |data| ==> r[i].key == data[i].key
  {
    seq(|data|, i requires 0 <= i < |data| =>
      if data[i].key == oldSpouse && data[i].spouse == Some(key) then data[i].(spouse := None, relationStatus := Some(Married))
      else data[i])
  }

  /** The person's previous spouse is released: it had a (truthy) spouse other than the one the update sets. */
  predicate ReleasesOldSpouse(person: Person, u: PersonUpdate) {
    Truthy(person.spouse) && u.spouse != Some(person.spouse)
  }

  /** `updates.spouse !== undefined ? updates.spouse : person.spouse`. */
  function ResultingSpouse(person: Person, u: PersonUpdate): Option<int> {
    if u.spouse.Some? then u.spouse.value else person.spouse
  }

  /** `updates.relationStatus || person.relationStatus`. */
  function ResultingStatus(person: Person, u: PersonUpdate): Option<RelationStatus> {
    if u.relationStatus.Some? && u.relationStatus.value.Some? then u.relationStatus.value else person.relationStatus
  }

  /** The merge step: every record with the key takes the update. */
  function MergedFamily(data: seq<Person>, key: int, u: PersonUpdate): (r: seq<Person>)
    ensures |r| == |data| && forall i :: 0 <= i < |data| ==> r[i].key == data[i].key
  {
    seq(|data|, i requires 0 <= i < |data| => if data[i].key == key then Merge(data[i], u) else data[i])
  }

  /** The people `updatePerson` computes inside its second `set`. */
  function UpdateFamily(data: seq<Person>, key: int, u: PersonUpdate): UpdateOutcome {
    var found := FindByKey(data, key);
    if found.None? then NotFound
    else if SetsSelfAsParent(key, u) then SelfParent
    else if SetsDescendantAsParent(data, key, u) then CircularParent
    else
      var person := found.value;
      var merged := MergedFamily(data, key, u);
      var released := if ReleasesOldSpouse(person, u) then Released(merged, person.spouse.value, key) else merged;
      var spouseKey := ResultingSpouse(person, u);
      Applied(if Truthy(spouseKey) then WithSpouseLink(released, spouseKey.value, key, ResultingStatus(person, u))
              else released)
  }

  /** The update goes through exactly when the key is present, it is not self-parenting and not circular. */
  lemma UpdateAppliedIff(data: seq<Person>, key: int, u: PersonUpdate)
    ensures UpdateFamily(data, key, u).Applied? <==>
      key in KeySet(data) && !SetsSelfAsParent(key, u) && !SetsDescendantAsParent(data, key, u)
    ensures UpdateFamily(data, key, u).NotFound? <==> key !in KeySet(data)
  {
  }

  /**
   * After an update that goes through, the resulting spouse (when truthy)
   * names the person back, with the resulting relation status.
   */
  lemma UpdateLinksSpouse(data: seq<Person>, key: int, u: PersonUpdate)
    requires UpdateFamily(data, key, u).Applied?
    ensures var person := FindByKey(data, key).value;
      var spouseKey := ResultingSpouse(person, u);
      var r := UpdateFamily(data, key, u).familyData;
      |r| == |data| &&
      (Truthy(spouseKey) ==> forall i :: 0 <= i < |r| && r[i].key == spouseKey.value ==>
        r[i].spouse == Some(key) && r[i].relationStatus == ResultingStatus(person, u))
  {
  }

  /** A spouse the update sets, other than the person, is named by every record of the person afterwards. */
  lemma UpdateSetsOwnSpouse(data: seq<Person>, key: int, u: PersonUpdate)
    requires UpdateFamily(data, key, u).Applied?
    ensures var person := FindByKey(data, key).value;
      var r := UpdateFamily(data, key, u).familyData;
      u.spouse.Some? && Truthy(u.spouse.value) && u.spouse.value.value != key && person.spouse != Some(key) ==>
        forall i :: 0 <= i < |r| && r[i].key == key ==> r[i].spouse == u.spouse.value
  {
    var person := FindByKey(data, key).value;
    var merged := MergedFamily(data, key, u);
    var released := if ReleasesOldSpouse(person, u) then Released(merged, person.spouse.value, key) else merged;
    if u.spouse.Some? && Truthy(u.spouse.value) && u.spouse.value.value != key && person.spouse != Some(key) {
      var r := WithSpouseLink(released, u.spouse.value.value, key, ResultingStatus(person, u));
      assert UpdateFamily(data, key, u).familyData == r;
      forall i | 0 <= i < |r| && r[i].key == key ensures r[i].spouse == u.spouse.value {
        assert r[i] == released[i] && merged[i] == Merge(data[i], u);
      }
    }
  }

  /**
   * Spouse links are not kept symmetric across the store: taking another
   * person's spouse links the new pair both ways, but the former partner
   * still names the spouse.
   */
  lemma UpdateLeavesFormerPartnerLink()
    ensures var p1 := Person(1, "a", None, Male, false, None, None, Some(2), Some(Married), [], None, false, false, None, None, false);
      var p2 := Person(2, "b", None, Female, false, None, None, Some(1), Some(Married), [], None, false, false, None, None, false);
      var p3 := Person(3, "c", None, Male, false, None, None, None, None, [], None, false, false, None, None, false);
      var u := PersonUpdate(None, None, None, None, None, None, Some(Some(2)), None, None, None, None, None, None, None, None);
      var r := UpdateFamily([p1, p2, p3], 3, u);
      r.Applied? && |r.familyData| == 3 &&
      r.familyData[1].spouse == Some(3) && r.familyData[2].spouse == Some(2) && r.familyData[0].spouse == Some(2)
  {
    var p1 := Person(1, "a", None, Male, false, None, None, Some(2), Some(Married), [], None, false, false, None, None, false);
    var p2 := Person(2, "b", None, Female, false, None, None, Some(1), Some(Married), [], None, false, false, None, None, false);
    var p3 := Person(3, "c", None, Male, false, None, None, None, None, [], None, false, false, None, None, false);
    var u := PersonUpdate(None, None, None, None, None, None, Some(Some(2)), None, None, None, None, None, None, None, None);
    var data := [p1, p2, p3];
    assert data[1..] == [p2, p3] && [p2, p3][1..] == [p3];
    assert FindByKey([p3], 3) == Some(p3);
    assert FindByKey([p2, p3], 3) == Some(p3);
    assert FindByKey(data, 3) == Some(p3);
    assert !SetsDescendantAsParent(data, 3, u);
    var merged := MergedFamily(data, 3, u);
    assert merged[0] == p1 && merged[1] == p2 && merged[2].spouse == Some(2);
    var linked := WithSpouseLink(merged, 2, 3, ResultingStatus(p3, u));
    assert UpdateFamily(data, 3, u) == Applied(linked);
  }

  /**
   * A previous spouse that is no longer the spouse and named the person is
   * released: no spouse and status 'married'.
   */
  lemma UpdateReleasesOldSpouse(data: seq<Person>, key: int, u: PersonUpdate)
    requires UpdateFamily(data, key, u).Applied?
    ensures var person := FindByKey(data, key).value;
      var spouseKey := ResultingSpouse(person, u);
      var r := UpdateFamily(data, key, u).familyData;
      ReleasesOldSpouse(person, u) && person.spouse.value != key && !(Truthy(spouseKey) && spouseKey.value == person.spouse.value) ==>
        forall i :: 0 <= i < |data| && data[i].key == person.spouse.value && data[i].spouse == Some(key) ==>
          r[i].spouse.None? && r[i].relationStatus == Some(Married)
  {
  }

  /** An accepted update keeps the number of records and every record's key. */
  lemma UpdateKeepsKeys(data: seq<Person>, key: int, u: PersonUpdate)
    requires UpdateFamily(data, key, u).Applied?
    ensures var r := UpdateFamily(data, key, u).familyData;
      |r| == |data| && forall i :: 0 <= i < |data| ==> r[i].key == data[i].key
  {
  }

  /** The person takes the update, unless the person is also their own old or new spouse. */
  lemma UpdateMergesPerson(data: seq<Person>, key: int, u: PersonUpdate)
    requires UpdateFamily(data, key, u).Applied?
    ensures var person := FindByKey(data, key).value;
      var spouseKey := ResultingSpouse(person, u);
      var r := UpdateFamily(data, key, u).familyData;
      forall i :: (0 <= i < |data| && data[i].key == key && !(Truthy(spouseKey) && spouseKey.value == key) &&
                   !(ReleasesOldSpouse(person, u) && person.spouse.value == key)) ==>
        r[i] == Merge(data[i], u)
  {
  }

  /** Everyone other than the person, the old spouse and the resulting spouse keeps their record. */
  lemma UpdateLeavesOthers(data: seq<Person>, key: int, u: PersonUpdate)
    requires UpdateFamily(data, key, u).Applied?
    ensures var person := FindByKey(data, key).value;
      var spouseKey := ResultingSpouse(person, u);
      var r := UpdateFamily(data, key, u).familyData;
      forall i :: (0 <= i < |data| && data[i].key != key && !(Truthy(spouseKey) && data[i].key == spouseKey.value) &&
                   !(ReleasesOldSpouse(person, u) && data[i].key == person.spouse.value)) ==>
        r[i] == data[i]
  {
  }

  /** `updatePerson` as written: the history is saved before the checks and stays saved when the update is rejected. */
  function UpdatedAsWritten(s: StoreState, key: int, u: PersonUpdate): StoreState {
    var saved := Saved(s);
    match UpdateFamily(saved.familyData, key, u)
    case Applied(d) => saved.(familyData := d)
    case _ => saved
  }

  /** `updatePerson` as its comments intend: a rejected update leaves the store, history included, as it was. */
  function UpdatedChecked(s: StoreState, key: int, u: PersonUpdate): StoreState {
    match UpdateFamily(s.familyData, key, u)
    case Applied(d) => Saved(s).(familyData := d)
    case _ => s
  }

  /**
   * As written, a rejected update keeps the people but still pushes a
   * snapshot identical to the present and empties `future`: undo after it
   * restores nothing.
   */
  lemma RejectedUpdateStillSaves(s: StoreState, key: int, u: PersonUpdate)
    requires !UpdateFamily(s.familyData, key, u).Applied?
    ensures var r := UpdatedAsWritten(s, key, u);
      r.familyData == s.familyData && r.nextKey == s.nextKey &&
      |r.past| == |s.past| + 1 && r.future == [] &&
      Undone(r).familyData == r.familyData && Undone(r).nextKey == r.nextKey
  {
  }

  /** A concrete rejected update: making person 1 their own father adds a history entry. */
  lemma SelfParentAddsHistory()
    ensures var p := Person(1, "a", None, Male, false, None, None, None, None, [], None, false, false, None, None, false);
      var u := PersonUpdate(None, None, None, None, Some(Some(1)), None, None, None, None, None, None, None, None, None, None);
      var s := StoreState([p], 2, [], [], []);
      UpdateFamily(s.familyData, 1, u) == SelfParent &&
      UpdatedAsWritten(s, 1, u).past == [Snapshot([p], 2)] &&
      UpdatedChecked(s, 1, u) == s
  {
  }

  /** Corrected, a rejected update changes nothing; an accepted one saves history exactly as written. */
  lemma CheckedUpdateReverts(s: StoreState, key: int, u: PersonUpdate)
    ensures !UpdateFamily(s.familyData, key, u).Applied? ==> UpdatedChecked(s, key, u) == s
    ensures UpdateFamily(s.familyData, key, u).Applied? ==> UpdatedChecked(s, key, u) == UpdatedAsWritten(s, key, u)
  {
  }

  // ---------------------------------------------------------------- deletePerson

  /** The references to `key` cleared: father, mother, spouse (which resets the status to 'married'). */
  function Scrub(p: Person, key: int): Person {
    p.(father := if p.father == Some(key) then None else p.father,
       mother := if p.mother == Some(key) then None else p.mother,
       spouse := if p.spouse == Some(key) then None else p.spouse,
       relationStatus := if p.spouse == Some(key) then Some(Married) else p.relationStatus)
  }

  /** `deletePerson`'s people: everyone with another key, with references to the key cleared. */
  function DeletedFamily(data: seq<Person>, key: int): seq<Person> {
    if data == [] then []
    else
      var n := |data| - 1;
      DeletedFamily(data[..n], key) + (if data[n].key != key then [Scrub(data[n], key)] else [])
  }

  /** The people after `deletePerson(key)` are exactly the others, each with its references to the key cleared. */
  lemma {:induction false} DeleteKeepsOthers(data: seq<Person>, key: int)
    ensures forall p :: p in DeletedFamily(data, key) <==> exists q :: q in data && q.key != key && p == Scrub(q, key)
  {
    if data != [] {
      var n := |data| - 1;
      DeleteKeepsOthers(data[..n], key);
      assert data == data[..n] + [data[n]];
      forall p | p in DeletedFamily(data, key) ensures exists q :: q in data && q.key != key && p == Scrub(q, key) {
        if p in DeletedFamily(data[..n], key) {
          var q :| q in data[..n] && q.key != key && p == Scrub(q, key);
          assert q in data;
        } else {
          assert data[n] in data;
        }
      }
    }
  }

  /** After `deletePerson(key)` no one has the key and no one refers to it as father, mother or spouse. */
  lemma DeleteLeavesNoDangling(data: seq<Person>, key: int)
    ensures forall p :: p in DeletedFamily(data, key) ==>
      p.key != key && p.father != Some(key) && p.mother != Some(key) && p.spouse != Some(key)
  {
    DeleteKeepsOthers(data, key);
  }

  /** `deletePerson(key)` removes exactly the key from the set of keys. */
  lemma DeleteKeySet(data: seq<Person>, key: int)
    ensures KeySet(DeletedFamily(data, key)) == KeySet(data) - {key}
  {
    var r := DeletedFamily(data, key);
    DeleteKeepsOthers(data, key);
    forall k | k in KeySet(r) ensures k in KeySet(data) - {key} {
      var i :| 0 <= i < |r| && r[i].key == k;
      assert r[i] in r;
      var q :| q in data && q.key != key && r[i] == Scrub(q, key);
      var j :| 0 <= j < |data| && data[j] == q;
    }
    forall k | k in KeySet(data) - {key} ensures k in KeySet(r) {
      var j :| 0 <= j < |data| && data[j].key == k;
      assert data[j] in data;
      assert Scrub(data[j], key) in r;
      var i :| 0 <= i < |r| && r[i] == Scrub(data[j], key);
    }
  }

  /** `selectedPersonKeys.filter(k => k !== key)`. */
  function Removed(keys: seq<int>, key: int): (r: seq<int>)
    ensures forall k :: k in r <==> k in keys && k != key
    ensures |r| <= |keys|
  {
    if keys == [] then []
    else
      var n := |keys| - 1;
      assert keys == keys[..n] + [keys[n]];
      Removed(keys[..n], key) + (if keys[n] != key then [keys[n]] else [])
  }

  /** A sequence without the key is unchanged by removing it. */
  lemma {:induction false} RemovedAbsent(keys: seq<int>, key: int)
    requires key !in keys
    ensures Removed(keys, key) == keys
  {
    if keys != [] {
      var n := |keys| - 1;
      assert keys == keys[..n] + [keys[n]];
      RemovedAbsent(keys[..n], key);
    }
  }

  // ---------------------------------------------------------------- selection

  /** `toggleSelectPerson`: a selected key is removed (every occurrence), an unselected one appended. */
  function Toggled(keys: seq<int>, key: int): seq<int> {
    if key in keys then Removed(keys, key) else keys + [key]
  }

  /** Toggling flips the key's selection and keeps every other key's. */
  lemma ToggleFlips(keys: seq<int>, key: int)
    ensures key in Toggled(keys, key) <==> key !in keys
    ensures forall k :: k != key ==> (k in Toggled(keys, key) <==> k in keys)
  {
  }

  /** Toggling an unselected key twice restores the selection. */
  lemma ToggleTwice(keys: seq<int>, key: int)
    requires key !in keys
    ensures Toggled(Toggled(keys, key), key) == keys
  {
    assert key in keys + [key];
    RemovedTwice(keys, key);
  }

  lemma RemovedTwice(keys: seq<int>, key: int)
    requires key !in keys
    ensures Removed(keys + [key], key) == keys
  {
    assert (keys + [key])[..|keys|] == keys;
    RemovedAbsent(keys, key);
  }

  // ---------------------------------------------------------------- positions, import and export

  /** `familyData.map(p => ({ ...p, position: null }))`. */
  function ClearedPositions(data: seq<Person>): seq<Person> {
    seq(|data|, i requires 0 <= i < |data| => data[i].(position := None))
  }

  /** Clearing removes every manual position, changes no other field and no count, and clearing again changes nothing. */
  lemma ClearPositionsOnly(data: seq<Person>)
    ensures |ClearedPositions(data)| == |data|
    ensures forall i :: 0 <= i < |data| ==>
      ClearedPositions(data)[i].position.None? && ClearedPositions(data)[i].(position := data[i].position) == data[i]
    ensures ClearedPositions(ClearedPositions(data)) == ClearedPositions(data)
  {
  }

  /** `exportData`: the people and the counter, under version '1.0'. */
  function Exported(s: StoreState): GenogramData {
    GenogramData("1.0", s.nextKey, s.familyData)
  }

  /** Export after import gives back the imported people and counter, with the version set to '1.0'. */
  lemma ExportAfterImport(s: StoreState, d: GenogramData)
    ensures Exported(Apply(s, ImportAction(d))) == d.(version := "1.0")
    ensures Apply(s, ImportAction(d)).selectedPersonKeys == []
  {
  }

  /** Importing an export restores the people and the counter, saving the present in history. */
  lemma ImportAfterExport(s: StoreState)
    ensures var r := Apply(s, ImportAction(Exported(s)));
      r.familyData == s.familyData && r.nextKey == s.nextKey &&
      r.past == s.past + [Snapshot(s.familyData, s.nextKey)]
  {
  }

  // ---------------------------------------------------------------- all actions

  /** What each action does to the store. */
  function Apply(s: StoreState, a: Action): StoreState {
    match a
    case AddAction(personData) =>
      var h := Saved(s);
      h.(familyData := AddedFamily(h.familyData, personData, h.nextKey), nextKey := h.nextKey + 1, selectedPersonKeys := [])
    case UpdateAction(key, u) => UpdatedAsWritten(s, key, u)
    case DeleteAction(key) =>
      var h := Saved(s);
      h.(familyData := DeletedFamily(h.familyData, key), selectedPersonKeys := Removed(h.selectedPersonKeys, key))
    case SelectAction(k) => s.(selectedPersonKeys := if k.None? then [] else [k.value])
    case ToggleAction(key) => s.(selectedPersonKeys := Toggled(s.selectedPersonKeys, key))
    case ResetAction => Saved(s).(familyData := [], nextKey := 1, selectedPersonKeys := [])
    case ImportAction(d) => Saved(s).(familyData := d.familyData, nextKey := d.nextKey, selectedPersonKeys := [])
    case ClearPositionsAction => Saved(s).(familyData := ClearedPositions(s.familyData))
    case UndoAction => Undone(s)
    case RedoAction => Redone(s)
  }

  /**
   * Every action that changes the people pushes the prior
   * `{familyData, nextKey}` onto `past` and empties `future`.
   */
  lemma MutationsSaveHistory(s: StoreState, a: Action)
    requires Mutating(a)
    ensures Apply(s, a).past == s.past + [Snapshot(s.familyData, s.nextKey)]
    ensures Apply(s, a).future == []
  {
  }

  /** Selecting and toggling change only the selection. */
  lemma SelectionOnly(s: StoreState, a: Action)
    requires a.SelectAction? || a.ToggleAction?
    ensures Apply(s, a) == s.(selectedPersonKeys := Apply(s, a).selectedPersonKeys)
  {
  }

  /** After `deletePerson(key)` the key is neither a person's nor selected. */
  lemma DeleteClearsKey(s: StoreState, key: int)
    ensures key !in KeySet(Apply(s, DeleteAction(key)).familyData)
    ensures key !in Apply(s, DeleteAction(key)).selectedPersonKeys
  {
    DeleteKeySet(s.familyData, key);
  }

  /** Reset empties the people, restarts the counter at 1 and clears the selection. */
  lemma ResetEmpties(s: StoreState)
    ensures var r := Apply(s, ResetAction);
      r.familyData == [] && r.nextKey == 1 && r.selectedPersonKeys == [] && Undone(r).familyData == s.familyData
  {
  }

  // ---------------------------------------------------------------- the store object

  /** The zustand store: its five fields, updated in place by the actions. */
  class GenogramStore {
    var familyData: seq<Person>
    var nextKey: int
    var selectedPersonKeys: seq<int>
    var past: seq<Snapshot>
    var future: seq<Snapshot>

    function State(): StoreState
      reads this
    {
      StoreState(familyData, nextKey, selectedPersonKeys, past, future)
    }

    constructor()
      ensures State() == Initial
    {
      familyData := [];
      nextKey := 1;
      selectedPersonKeys := [];
      past := [];
      future := [];
    }

    /** The first `set` of every mutating action. */
    method SaveHistory()
      modifies this
      ensures State() == Saved(old(State()))
    {
      past := past + [Snapshot(familyData, nextKey)];
      future := [];
    }

    /** `addPerson`: returns the new person's key. */
    method AddPerson(personData: Person) returns (newKey: int)
      modifies this
      ensures State() == Apply(old(State()), AddAction(personData))
      ensures newKey == old(nextKey) && familyData[|familyData| - 1].key == newKey
    {
      SaveHistory();
      newKey := nextKey;
      var newPerson := personData.(key := newKey);
      var updatedFamilyData := familyData;
      if Truthy(newPerson.spouse) {
        updatedFamilyData := WithSpouseLink(updatedFamilyData, newPerson.spouse.value, newPerson.key, newPerson.relationStatus);
      }
      familyData := updatedFamilyData + [newPerson];
      nextKey := nextKey + 1;
      selectedPersonKeys := [];
    }

    /** `updatePerson` as written, rejections included. */
    method UpdatePerson(key: int, updates: PersonUpdate)
      modifies this
      ensures State() == Apply(old(State()), UpdateAction(key, updates))
    {
      SaveHistory();
      var verdict := CheckUpdate(familyData, key, updates);
      if verdict.Applied? {
        familyData := verdict.familyData;
      }
    }

    /** `updatePerson` with the history saved only once the update is accepted. */
    method UpdatePersonChecked(key: int, updates: PersonUpdate)
      modifies this
      ensures State() == UpdatedChecked(old(State()), key, updates)
    {
      var verdict := CheckUpdate(familyData, key, updates);
      if verdict.Applied? {
        SaveHistory();
        familyData := verdict.familyData;
      }
    }

    /** `deletePerson`. */
    method DeletePerson(key: int)
      modifies this
      ensures State() == Apply(old(State()), DeleteAction(key))
    {
      SaveHistory();
      familyData := DeletedFamily(familyData, key);
      selectedPersonKeys := Removed(selectedPersonKeys, key);
    }

    /** `selectPerson`: `null` clears the selection, a key becomes the only one selected. */
    method SelectPerson(key: Option<int>)
      modifies this
      ensures State() == Apply(old(State()), SelectAction(key))
    {
      selectedPersonKeys := if key.None? then [] else [key.value];
    }

    /** `toggleSelectPerson`. */
    method ToggleSelectPerson(key: int)
      modifies this
      ensures State() == Apply(old(State()), ToggleAction(key))
    {
      var isSelected := key in selectedPersonKeys;
      selectedPersonKeys := if isSelected then Removed(selectedPersonKeys, key) else selectedPersonKeys + [key];
    }

    /** `reset`. */
    method Reset()
      modifies this
      ensures State() == Apply(old(State()), ResetAction)
    {
      SaveHistory();
      familyData := [];
      nextKey := 1;
      selectedPersonKeys := [];
    }

    /** `importData`. */
    method ImportData(data: GenogramData)
      modifies this
      ensures State() == Apply(old(State()), ImportAction(data))
    {
      SaveHistory();
      familyData := data.familyData;
      nextKey := data.nextKey;
      selectedPersonKeys := [];
    }

    /** `exportData`. */
    method ExportData() returns (d: GenogramData)
      ensures d == Exported(State())
    {
      d := GenogramData("1.0", nextKey, familyData);
    }

    /** `clearAllPositions`. */
    method ClearAllPositions()
      modifies this
      ensures State() == Apply(old(State()), ClearPositionsAction)
    {
      SaveHistory();
      familyData := ClearedPositions(familyData);
    }

    /** `undo`. */
    method Undo()
      modifies this
      ensures State() == Apply(old(State()), UndoAction)
    {
      if |past| == 0 {
        return;
      }
      var previous := past[|past| - 1];
      future := [Snapshot(familyData, nextKey)] + future;
      past := past[..|past| - 1];
      familyData := previous.familyData;
      nextKey := previous.nextKey;
      selectedPersonKeys := [];
    }

    /** `redo`. */
    method Redo()
      modifies this
      ensures State() == Apply(old(State()), RedoAction)
    {
      if |future| == 0 {
        return;
      }
      var next := future[0];
      past := past + [Snapshot(familyData, nextKey)];
      future := future[1..];
      familyData := next.familyData;
      nextKey := next.nextKey;
      selectedPersonKeys := [];
    }
  }

  /**
   * The second `set` of `updatePerson`: find the person, reject self-parenting
   * and descendant parents (asking `isDescendant` with a bound of one
   * generation per record), then merge, release the old spouse and link the
   * resulting one.
   */
  method CheckUpdate(data: seq<Person>, key: int, updates: PersonUpdate) returns (outcome: UpdateOutcome)
    ensures outcome == UpdateFamily(data, key, updates)
  {
    var found := FindByKey(data, key);
    if found.None? {
      return NotFound;
    }
    var person := found.value;
    if updates.father == Some(Some(key)) || updates.mother == Some(Some(key)) {
      return SelfParent;
    }
    var father := Given(updates.father);
    var mother := Given(updates.mother);
    var circular := false;
    if Truthy(father) {
      circular := IsDescendant(data, key, father.value, |data|);
    }
    if !circular && Truthy(mother) {
      circular := IsDescendant(data, key, mother.value, |data|);
    }
    if circular {
      return CircularParent;
    }
    var updatedFamilyData := MergedFamily(data, key, updates);
    if ReleasesOldSpouse(person, updates) {
      updatedFamilyData := Released(updatedFamilyData, person.spouse.value, key);
    }
    var currentSpouseKey := ResultingSpouse(person, updates);
    var newRelationStatus := ResultingStatus(person, updates);
    if Truthy(currentSpouseKey) {
      updatedFamilyData := WithSpouseLink(updatedFamilyData, currentSpouseKey.value, key, newRelationStatus);
    }
    return Applied(updatedFamilyData);
  }
}
