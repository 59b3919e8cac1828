/**
 * The first three stages of `calculateGenogramLayout`
 * (src/utils/genogramLayout.ts): choosing the roots, building the forest of
 * family units with one shared visited set, and sizing every subtree bottom
 * up; plus `groupChildrenByTwin`, which the positioning stage uses to order a
 * unit's children.
 *
 * A family unit is a person, at most one spouse paired with them, and the
 * units of their children. The source's `TreeNode` objects are modelled as
 * values: `CalculateSize` returns the sized copy of a tree instead of writing
 * `width` and `centerX` into it.
 */
module LayoutTree {
  import opened Types
  import opened Sequences

  const NodeWidth: real := 80.0
  const HorizontalSpacing: real := 30.0
  const SpouseSpacing: real := 50.0
  const VerticalSpacing: real := 150.0
  /** The gap between two separate family trees of the forest. */
  const ForestGap: real := 100.0

  /** A family unit: the person, the paired spouse, the children's units and the unit's size. */
  datatype Tree = Tree(person: Person, spouse: Option<Person>, children: seq<Tree>, width: real, centerX: real)

  // ---------------------------------------------------------------- keys

  /** The keys of everyone in the unit: the person, the spouse, then the children's units. */
  function Keys(t: Tree): seq<int>
    decreases t
  {
    [t.person.key] + (if t.spouse.Some? then [t.spouse.value.key] else []) + ForestKeys(t.children)
  }

  /** The keys of everyone in a sequence of units. */
  function ForestKeys(ts: seq<Tree>): seq<int>
    decreases ts
  {
    if ts == [] then [] else ForestKeys(ts[..|ts| - 1]) + Keys(ts[|ts| - 1])
  }

  /** No key occurs twice. */
  ghost predicate DistinctKeys(s: seq<int>) {
    forall k :: multiset(s)[k] <= 1
  }

  lemma {:induction false} ForestKeysIsConcatMap(ts: seq<Tree>)
    ensures ForestKeys(ts) == ConcatMap(Keys, ts)
  {
    if ts != [] {
      ForestKeysIsConcatMap(ts[..|ts| - 1]);
    }
  }

  /** A unit's keys are among the keys of any sequence of units that holds it. */
  lemma {:induction false} KeysOfMember(ts: seq<Tree>, c: Tree)
    requires c in ts
    ensures multiset(Keys(c)) <= multiset(ForestKeys(ts))
  {
    var n := |ts| - 1;
    if ts[n] != c {
      assert c in ts[..n] by { var i :| 0 <= i < |ts| && ts[i] == c; assert ts[..n][i] == c; }
      KeysOfMember(ts[..n], c);
    }
  }

  /** Reordering units reorders, and so keeps, their keys. */
  lemma ForestKeysPermutation(a: seq<Tree>, b: seq<Tree>)
    requires multiset(a) == multiset(b)
    ensures multiset(ForestKeys(a)) == multiset(ForestKeys(b))
  {
    ForestKeysIsConcatMap(a);
    ForestKeysIsConcatMap(b);
    ConcatMapPermutation(Keys, a, b);
  }

  /** Keys taken from a set never repeat. */
  lemma DistinctFromSet(s: seq<int>, keys: set<int>)
    requires multiset(s) == multiset(keys)
    ensures DistinctKeys(s)
  {
  }

  /** Splitting a chain of sets into the parts each step added. */
  lemma SetMultisetSplit(a: set<int>, b: set<int>, c: set<int>)
    requires a <= b <= c
    ensures multiset(b - a) + multiset(c - b) == multiset(c - a)
  {
    assert (b - a) * (c - b) == {};
    assert (b - a) + (c - b) == c - a;
  }

  /** Appending a tree that holds exactly the keys marked since `b` extends the keys marked since `a`. */
  lemma AppendTree(ts: seq<Tree>, t: Tree, a: set<int>, b: set<int>, c: set<int>)
    requires a <= b <= c
    requires multiset(ForestKeys(ts)) == multiset(b - a)
    requires multiset(Keys(t)) == multiset(c - b)
    ensures multiset(ForestKeys(ts + [t])) == multiset(c - a)
  {
    assert (ts + [t])[..|ts|] == ts;
    SetMultisetSplit(a, b, c);
  }

  /** `AppendTree` for keys marked since the start. */
  lemma AppendTreeFromStart(ts: seq<Tree>, t: Tree, b: set<int>, c: set<int>)
    requires b <= c
    requires multiset(ForestKeys(ts)) == multiset(b)
    requires multiset(Keys(t)) == multiset(c - b)
    ensures multiset(ForestKeys(ts + [t])) == multiset(c)
  {
    assert b - {} == b && c - {} == c;
    AppendTree(ts, t, {}, b, c);
  }

  // ---------------------------------------------------------------- person map

  /** The last person in `data` with key `k`: `personMap.set` in input order keeps the last. */
  function LastWithKey(data: seq<Person>, k: int): (r: Option<Person>)
    ensures r.Some? ==> r.value in data && r.value.key == k
    ensures r.Some? ==> exists i :: 0 <= i < |data| && data[i] == r.value && forall j :: i < j < |data| ==> data[j].key != k
    ensures r.None? ==> forall i :: 0 <= i < |data| ==> data[i].key != k
  {
    if data == [] then None
    else if data[|data| - 1].key == k then Some(data[|data| - 1])
    else LastWithKey(data[..|data| - 1], k)
  }

  /** `pm` is `personMap` for `data`: every key of `data` maps to the last person with that key. */
  ghost predicate IsPersonMap(data: seq<Person>, pm: map<int, Person>) {
    forall k :: LastWithKey(data, k) == (if k in pm then Some(pm[k]) else None)
  }

  /** What building the forest needs of `personMap`: it maps each key to a person of `data` with that key. */
  ghost predicate FromData(pm: map<int, Person>, data: seq<Person>) {
    forall k :: k in pm ==> pm[k].key == k && pm[k] in data
  }

  /** `familyData.forEach(p => personMap.set(p.key, p))`. */
  method BuildPersonMap(data: seq<Person>) returns (pm: map<int, Person>)
    ensures IsPersonMap(data, pm)
    ensures pm.Keys == KeySet(data)
  {
    pm := map[];
    for i := 0 to |data|
      invariant IsPersonMap(data[..i], pm)
    {
      assert data[..i + 1][..i] == data[..i];
      pm := pm[data[i].key := data[i]];
    }
    assert data[..|data|] == data;
    forall k | k in pm ensures k in KeySet(data) {
      assert LastWithKey(data, k) == Some(pm[k]);
      KeyInKeySet(data, pm[k]);
    }
    forall k | k in KeySet(data) ensures k in pm {
      var i :| 0 <= i < |data| && data[i].key == k;
      assert LastWithKey(data, k).Some?;
    }
  }

  /** A person map stays usable when the people are reordered. */
  lemma PersonMapFromData(orig: seq<Person>, data: seq<Person>, pm: map<int, Person>)
    requires IsPersonMap(orig, pm)
    requires multiset(data) == multiset(orig)
    ensures FromData(pm, data)
  {
    forall k | k in pm ensures pm[k].key == k && pm[k] in data {
      assert LastWithKey(orig, k) == Some(pm[k]);
      assert pm[k] in multiset(orig);
    }
  }

  // ---------------------------------------------------------------- roots

  /** `!p.father && !p.mother`: a person with no (truthy) parent reference. */
  predicate IsParentless(p: Person) {
    !Truthy(p.father) && !Truthy(p.mother)
  }

  /** `familyData.filter(p => !p.father && !p.mother)`. */
  function Parentless(data: seq<Person>): (r: seq<Person>)
    ensures forall p :: p in r <==> p in data && IsParentless(p)
  {
    if data == [] then []
    else
      var n := |data| - 1;
      assert data == data[..n] + [data[n]];
      Parentless(data[..n]) + (if IsParentless(data[n]) then [data[n]] else [])
  }

  function PersonKey(p: Person): int { p.key }

  /**
   * Root selection: the parentless people; when there are none, the sort of
   * `familyData` by key in place, and its first (lowest-key) person. `data` is
   * `familyData` after that sort, which the rest of the layout iterates over.
   */
  method SelectRoots(familyData: seq<Person>) returns (roots: seq<Person>, data: seq<Person>)
    ensures multiset(data) == multiset(familyData)
    ensures |roots| > 0 <==> |familyData| > 0
    ensures forall r :: r in roots ==> r in familyData
    ensures Parentless(familyData) != [] ==> roots == Parentless(familyData) && data == familyData
    ensures Parentless(familyData) == [] && familyData != [] ==>
      data == StableSortBy(familyData, PersonKey) && roots == [data[0]] &&
      forall p :: p in familyData ==> data[0].key <= p.key
  {
    roots := Parentless(familyData);
    data := familyData;
    if |roots| == 0 && |familyData| > 0 {
      data := StableSortBy(familyData, PersonKey);
      roots := [data[0]];
      assert data[0] in multiset(familyData);
      forall p | p in familyData ensures data[0].key <= p.key {
        assert p in multiset(data);
        var j :| 0 <= j < |data| && data[j] == p;
        assert j == 0 || PersonKey(data[0]) <= PersonKey(data[j]);
      }
    }
  }

  // ---------------------------------------------------------------- forest build

  /** `p` is a child of the person with key `k` or of the paired spouse. */
  predicate IsChildOf(p: Person, k: int, spouse: Option<Person>) {
    p.father == Some(k) || p.mother == Some(k) ||
    (spouse.Some? && (p.father == Some(spouse.value.key) || p.mother == Some(spouse.value.key)))
  }

  /** `familyData.filter(...)`: the children of a person or of the paired spouse, in input order. */
  function ChildrenOf(data: seq<Person>, k: int, spouse: Option<Person>): (r: seq<Person>)
    ensures forall p :: p in r <==> p in data && IsChildOf(p, k, spouse)
  {
    if data == [] then []
    else
      var n := |data| - 1;
      assert data == data[..n] + [data[n]];
      ChildrenOf(data[..n], k, spouse) + (if IsChildOf(data[n], k, spouse) then [data[n]] else [])
  }

  /**
   * Every unit of a built tree is a person of `data`; a paired spouse is the
   * person the primary names as spouse; every child unit is a child of the
   * primary or of the spouse.
   */
  ghost predicate WellBuilt(t: Tree, data: seq<Person>, pm: map<int, Person>)
    decreases t
  {
    t.person in data &&
    (t.spouse.Some? ==>
      Truthy(t.person.spouse) && t.person.spouse.value in pm && t.spouse.value == pm[t.person.spouse.value]) &&
    forall c :: c in t.children ==> IsChildOf(c.person, t.person.key, t.spouse) && WellBuilt(c, data, pm)
  }

  /** The person names a spouse who is in the person map, is not the person, and is not yet visited. */
  predicate SpouseAvailable(p: Person, pm: map<int, Person>, visited: set<int>) {
    Truthy(p.spouse) && p.spouse.value in pm && p.spouse.value != p.key && p.spouse.value !in visited
  }

  /**
   * `buildTree`: a visited person yields null; otherwise the person is
   * marked, paired with the named spouse when that spouse exists and is
   * unvisited, and the unvisited children of the couple are built in input
   * order. The tree holds exactly the keys this call marked, each once, and
   * every child of the couple ends up visited.
   */
  method BuildTree(data: seq<Person>, pm: map<int, Person>, person: Person, visited: set<int>)
    returns (tree: Option<Tree>, visitedOut: set<int>)
    requires FromData(pm, data)
    requires person in data
    requires visited <= KeySet(data)
    ensures visited <= visitedOut <= KeySet(data) && person.key in visitedOut
    ensures tree.None? <==> person.key in visited
    ensures tree.None? ==> visitedOut == visited
    ensures tree.Some? ==> tree.value.person == person && WellBuilt(tree.value, data, pm)
    ensures tree.Some? ==> multiset(Keys(tree.value)) == multiset(visitedOut - visited)
    ensures tree.Some? ==> (tree.value.spouse.Some? <==> SpouseAvailable(person, pm, visited))
    ensures tree.Some? ==>
      forall q :: q in data && IsChildOf(q, person.key, tree.value.spouse) ==> q.key in visitedOut
    ensures (tree, visitedOut) == TreeFor(data, pm, person, visited)
    decreases KeySet(data) - visited, 0
  {
    if person.key in visited {
      return None, visited;
    }
    var spouse, v := MarkWithSpouse(data, pm, person, visited);
    ghost var v0 := v;
    var kids := ChildrenOf(data, person.key, spouse);
    var built, v' := BuildChildren(data, pm, person.key, spouse, kids, v);
    SetMultisetSplit(visited, v0, v');
    tree := Some(Tree(person, spouse, built, 0.0, 0.0));
    visitedOut := v';
  }

  /** Marks an unvisited person, and the spouse too when `SpouseAvailable`, as visited. */
  method MarkWithSpouse(data: seq<Person>, pm: map<int, Person>, person: Person, visited: set<int>)
    returns (spouse: Option<Person>, v: set<int>)
    requires FromData(pm, data)
    requires person in data && person.key !in visited
    requires visited <= KeySet(data)
    ensures visited <= v <= KeySet(data) && person.key in v
    ensures spouse.Some? <==> SpouseAvailable(person, pm, visited)
    ensures spouse.Some? ==> spouse.value == pm[person.spouse.value] && spouse.value in data
    ensures multiset(v - visited) == multiset([person.key] + (if spouse.Some? then [spouse.value.key] else []))
    ensures spouse == PairedSpouse(pm, person, visited) && v == visited + Marked(person, spouse)
  {
    assert person.key in KeySet(data) by { KeyInKeySet(data, person); }
    v := visited + {person.key};
    spouse := None;
    if Truthy(person.spouse) && person.spouse.value in pm {
      var s := pm[person.spouse.value];
      if s.key !in v {
        spouse := Some(s);
        KeyInKeySet(data, s);
        v := v + {s.key};
      }
    }
    if spouse.Some? {
      assert v - visited == {person.key, spouse.value.key};
    } else {
      assert v - visited == {person.key};
    }
  }

  /** `children.forEach(...)` in `buildTree`: builds each child in turn and keeps the non-null trees. */
  method BuildChildren(data: seq<Person>, pm: map<int, Person>, k: int, spouse: Option<Person>,
                       kids: seq<Person>, visited: set<int>)
    returns (built: seq<Tree>, visitedOut: set<int>)
    requires FromData(pm, data)
    requires visited <= KeySet(data)
    requires forall c :: c in kids ==> c in data && IsChildOf(c, k, spouse)
    ensures visited <= visitedOut <= KeySet(data)
    ensures multiset(ForestKeys(built)) == multiset(visitedOut - visited)
    ensures forall c :: c in built ==> IsChildOf(c.person, k, spouse) && WellBuilt(c, data, pm)
    ensures forall q :: q in kids ==> q.key in visitedOut
    ensures (built, visitedOut) == ChildrenFor(data, pm, k, spouse, kids, visited)
    decreases KeySet(data) - visited, 2
  {
    built := [];
    visitedOut := visited;
    for i := 0 to |kids|
      invariant ChildrenBuilt(data, pm, k, spouse, kids, visited, i, built, visitedOut)
    {
      built, visitedOut := BuildNextChild(data, pm, k, spouse, kids, visited, i, built, visitedOut);
    }
    assert kids[..|kids|] == kids;
  }

  /** `children.forEach(...)` after `i` children: each is built or was already placed, in order. */
  ghost predicate ChildrenBuilt(data: seq<Person>, pm: map<int, Person>, k: int, spouse: Option<Person>,
                                kids: seq<Person>, visited: set<int>, i: int, built: seq<Tree>, visitedOut: set<int>)
    requires FromData(pm, data) && visited <= KeySet(data)
    requires forall c :: c in kids ==> c in data
  {
    0 <= i <= |kids| &&
    visited <= visitedOut <= KeySet(data) &&
    multiset(ForestKeys(built)) == multiset(visitedOut - visited) &&
    (forall c :: c in built ==> IsChildOf(c.person, k, spouse) && WellBuilt(c, data, pm)) &&
    (forall j :: 0 <= j < i ==> kids[j].key in visitedOut) &&
    (built, visitedOut) == ChildrenFor(data, pm, k, spouse, kids[..i], visited)
  }

  /** One child of `children.forEach(...)`: `buildTree(child)`, kept when it is not null. */
  method BuildNextChild(data: seq<Person>, pm: map<int, Person>, k: int, spouse: Option<Person>,
                        kids: seq<Person>, visited: set<int>, i: int, built0: seq<Tree>, visited0: set<int>)
    returns (built: seq<Tree>, visitedOut: set<int>)
    requires FromData(pm, data) && visited <= KeySet(data)
    requires forall c :: c in kids ==> c in data && IsChildOf(c, k, spouse)
    requires i < |kids|
    requires ChildrenBuilt(data, pm, k, spouse, kids, visited, i, built0, visited0)
    ensures ChildrenBuilt(data, pm, k, spouse, kids, visited, i + 1, built, visitedOut)
    decreases KeySet(data) - visited0, 1
  {
    ChildrenForStep(data, pm, k, spouse, kids, i, visited);
    var sub, v' := BuildTree(data, pm, kids[i], visited0);
    forall j | 0 <= j <= i ensures kids[j].key in v' {
      if j < i {
        assert kids[j].key in visited0;
      }
    }
    built := built0;
    if sub.Some? {
      AppendTree(built0, sub.value, visited, visited0, v');
      built := built0 + [sub.value];
    } else {
      assert built0 + [] == built0;
    }
    visitedOut := v';
  }

  /** Building one more child extends the children built so far. */
  lemma ChildrenForStep(data: seq<Person>, pm: map<int, Person>, k: int, spouse: Option<Person>,
                        kids: seq<Person>, i: int, visited: set<int>)
    requires FromData(pm, data) && visited <= KeySet(data)
    requires forall c :: c in kids ==> c in data
    requires 0 <= i < |kids|
    ensures var before := ChildrenFor(data, pm, k, spouse, kids[..i], visited);
            var sub := TreeFor(data, pm, kids[i], before.1);
            ChildrenFor(data, pm, k, spouse, kids[..i + 1], visited)
              == (before.0 + (if sub.0.Some? then [sub.0.value] else []), sub.1)
  {
    assert kids[..i + 1][..i] == kids[..i];
  }

  lemma KeyInKeySet(data: seq<Person>, p: Person)
    requires p in data
    ensures p.key in KeySet(data)
  {
    var i :| 0 <= i < |data| && data[i] == p;
  }

  // ---------------------------------------------------------------- the forest, as a function

  /** The spouse `buildTree` pairs with a person when `visited` is the set of keys already placed. */
  function PairedSpouse(pm: map<int, Person>, person: Person, visited: set<int>): Option<Person> {
    if SpouseAvailable(person, pm, visited) then Some(pm[person.spouse.value]) else None
  }

  /** The keys `buildTree` marks for a person and the paired spouse. */
  function Marked(person: Person, spouse: Option<Person>): set<int> {
    {person.key} + (if spouse.Some? then {spouse.value.key} else {})
  }

  /**
   * The tree `buildTree(person)` returns, and the visited set after it, when
   * the keys in `visited` are already placed.
   */
  ghost function TreeFor(data: seq<Person>, pm: map<int, Person>, person: Person, visited: set<int>): (r: (Option<Tree>, set<int>))
    requires FromData(pm, data) && person in data && visited <= KeySet(data)
    ensures visited <= r.1 <= KeySet(data)
    decreases KeySet(data) - visited, 0
  {
    if person.key in visited then (None, visited)
    else
      var spouse := PairedSpouse(pm, person, visited);
      KeyInKeySet(data, person);
      assert spouse.Some? ==> spouse.value.key in KeySet(data) by {
        if spouse.Some? { KeyInKeySet(data, spouse.value); }
      }
      var kids := ChildrenFor(data, pm, person.key, spouse, ChildrenOf(data, person.key, spouse), visited + Marked(person, spouse));
      (Some(Tree(person, spouse, kids.0, 0.0, 0.0)), kids.1)
  }

  /** The trees of `children.forEach(...)` in `buildTree`, in order, and the visited set after them. */
  ghost function ChildrenFor(data: seq<Person>, pm: map<int, Person>, k: int, spouse: Option<Person>,
                             kids: seq<Person>, visited: set<int>): (r: (seq<Tree>, set<int>))
    requires FromData(pm, data) && visited <= KeySet(data)
    requires forall c :: c in kids ==> c in data
    ensures visited <= r.1 <= KeySet(data)
    decreases KeySet(data) - visited, 1, |kids|
  {
    if kids == [] then ([], visited)
    else
      var n := |kids| - 1;
      var before := ChildrenFor(data, pm, k, spouse, kids[..n], visited);
      var sub := TreeFor(data, pm, kids[n], before.1);
      (before.0 + (if sub.0.Some? then [sub.0.value] else []), sub.1)
  }

  /** `const tree = buildTree(p); if (tree) forest.push(tree);` on a forest and its visited set. */
  ghost function PlantFor(data: seq<Person>, pm: map<int, Person>, p: Person, acc: (seq<Tree>, set<int>)): (r: (seq<Tree>, set<int>))
    requires FromData(pm, data) && p in data && acc.1 <= KeySet(data)
    ensures acc.1 <= r.1 <= KeySet(data)
  {
    var sub := TreeFor(data, pm, p, acc.1);
    (acc.0 + (if sub.0.Some? then [sub.0.value] else []), sub.1)
  }

  /** The forest and visited set after planting `people` in order, from `start`. */
  ghost function PlantAllFor(data: seq<Person>, pm: map<int, Person>, people: seq<Person>, start: (seq<Tree>, set<int>)): (r: (seq<Tree>, set<int>))
    requires FromData(pm, data) && start.1 <= KeySet(data)
    requires forall p :: p in people ==> p in data
    ensures start.1 <= r.1 <= KeySet(data)
  {
    if people == [] then start
    else PlantFor(data, pm, people[|people| - 1], PlantAllFor(data, pm, people[..|people| - 1], start))
  }

  /** The forest `calculateGenogramLayout` builds from `data`: the roots' trees, then the people they did not reach. */
  ghost function ForestFor(data: seq<Person>, pm: map<int, Person>, roots: seq<Person>): seq<Tree>
    requires FromData(pm, data)
    requires forall r :: r in roots ==> r in data
  {
    PlantAllFor(data, pm, data, PlantAllFor(data, pm, roots, ([], {}))).0
  }

  /** The person map of `data`: each key maps to the last person with that key. */
  ghost function PersonMapOf(data: seq<Person>): (pm: map<int, Person>)
    ensures IsPersonMap(data, pm)
  {
    map k | k in KeySet(data) && LastWithKey(data, k).Some? :: LastWithKey(data, k).value
  }

  /** A person map is determined by its people. */
  lemma PersonMapUnique(data: seq<Person>, pm: map<int, Person>)
    requires IsPersonMap(data, pm)
    ensures pm == PersonMapOf(data)
  {
    var ref := PersonMapOf(data);
    forall k ensures (k in pm <==> k in ref) && (k in pm ==> pm[k] == ref[k]) {
      assert LastWithKey(data, k) == (if k in pm then Some(pm[k]) else None);
      assert LastWithKey(data, k) == (if k in ref then Some(ref[k]) else None);
    }
  }

  /** The people the layout iterates over: `familyData`, sorted by key when no one is parentless. */
  function DataOf(familyData: seq<Person>): seq<Person> {
    if Parentless(familyData) != [] || familyData == [] then familyData else StableSortBy(familyData, PersonKey)
  }

  /** The roots: the parentless people, or else the first person of the sorted list. */
  function RootsOf(familyData: seq<Person>): seq<Person> {
    if Parentless(familyData) != [] then Parentless(familyData)
    else if familyData == [] then []
    else [DataOf(familyData)[0]]
  }

  /** The forest the layout builds from `familyData`, before sizing. */
  ghost function GenogramForest(familyData: seq<Person>): seq<Tree> {
    var data := DataOf(familyData);
    PersonMapFromData(familyData, data, PersonMapOf(familyData));
    assert forall r :: r in RootsOf(familyData) ==> r in data by {
      forall r | r in RootsOf(familyData) ensures r in data {
        if Parentless(familyData) == [] && familyData != [] { assert data[0] in data; }
      }
    }
    ForestFor(data, PersonMapOf(familyData), RootsOf(familyData))
  }

  /**
   * A married couple with no parents becomes one family unit: the first of
   * them is the root, paired with the other, and the second pass finds both
   * already placed.
   */
  lemma CoupleIsOneUnit(a: Person, b: Person)
    requires IsParentless(a) && IsParentless(b)
    requires a.key != 0 && b.key != 0 && a.key != b.key
    requires a.spouse == Some(b.key) && b.spouse == Some(a.key)
    ensures GenogramForest([a, b]) == [Tree(a, Some(b), [], 0.0, 0.0)]
  {
    var data := [a, b];
    CoupleRoots(a, b);
    CouplePersonMap(a, b);
    var pm := PersonMapOf(data);
    PersonMapFromData(data, data, pm);
    var t := Tree(a, Some(b), [], 0.0, 0.0);
    CoupleTree(a, b, pm);
    var start: (seq<Tree>, set<int>) := ([], {});
    var placed := ([t], {a.key, b.key});
    assert [] + [t] == [t] && [t] + [] == [t];
    assert PlantFor(data, pm, a, start) == placed;
    assert PlantFor(data, pm, b, placed) == placed;
    assert PlantFor(data, pm, a, placed) == placed;
    PlantCouple(a, b, pm, start, placed);
    PlantCouple(a, b, pm, placed, placed);
  }

  /** Both of a parentless couple are roots, in input order. */
  lemma CoupleRoots(a: Person, b: Person)
    requires IsParentless(a) && IsParentless(b)
    ensures DataOf([a, b]) == [a, b] && RootsOf([a, b]) == [a, b]
  {
    assert [a, b][..1] == [a];
    assert [a][..0] == [];
    assert Parentless([a]) == [a];
    assert Parentless([a, b]) == [a, b];
  }

  /** The person map of two people with different keys. */
  lemma CouplePersonMap(a: Person, b: Person)
    requires a.key != b.key
    ensures PersonMapOf([a, b]) == map[a.key := a, b.key := b]
  {
    var data := [a, b];
    assert data[..1] == [a];
    assert [a][..0] == [];
    assert LastWithKey(data, a.key) == Some(a);
    assert LastWithKey(data, b.key) == Some(b);
    assert KeySet(data) == {a.key, b.key} by {
      assert data[0].key == a.key && data[1].key == b.key;
    }
  }

  /** The first of a parentless couple is built with the other as spouse and no children. */
  lemma CoupleTree(a: Person, b: Person, pm: map<int, Person>)
    requires IsParentless(a) && IsParentless(b)
    requires a.key != 0 && b.key != 0 && a.key != b.key
    requires a.spouse == Some(b.key)
    requires pm == map[a.key := a, b.key := b]
    ensures FromData(pm, [a, b]) && KeySet([a, b]) == {a.key, b.key}
    ensures TreeFor([a, b], pm, a, {}) == (Some(Tree(a, Some(b), [], 0.0, 0.0)), {a.key, b.key})
  {
    var data := [a, b];
    assert KeySet(data) == {a.key, b.key} by {
      assert data[0].key == a.key && data[1].key == b.key;
    }
    assert PairedSpouse(pm, a, {}) == Some(b);
    assert {} + Marked(a, Some(b)) == {a.key, b.key};
    assert !IsChildOf(a, a.key, Some(b)) && !IsChildOf(b, a.key, Some(b));
    assert ChildrenOf(data, a.key, Some(b)) == [] by {
      assert data[..1] == [a];
      assert [a][..0] == [];
      assert ChildrenOf([a], a.key, Some(b)) == [];
    }
    assert ChildrenFor(data, pm, a.key, Some(b), [], {a.key, b.key}) == ([], {a.key, b.key});
  }

  /** Planting a couple, in input order, into a forest. */
  lemma PlantCouple(a: Person, b: Person, pm: map<int, Person>, start: (seq<Tree>, set<int>), r: (seq<Tree>, set<int>))
    requires FromData(pm, [a, b]) && start.1 <= KeySet([a, b])
    requires PlantFor([a, b], pm, b, PlantFor([a, b], pm, a, start)) == r
    ensures PlantAllFor([a, b], pm, [a, b], start) == r
  {
    assert [a, b][..1] == [a];
    assert [a][..0] == [];
    assert PlantAllFor([a, b], pm, [a], start) == PlantFor([a, b], pm, a, start);
  }

  /**
   * The forest: a tree for each root in turn, then one for each person the
   * roots did not reach, in the order of `data`. Every key of `data` is in
   * exactly one tree, once; the first tree is the first root's.
   */
  method BuildForest(data: seq<Person>, pm: map<int, Person>, roots: seq<Person>) returns (forest: seq<Tree>)
    requires FromData(pm, data)
    requires forall r :: r in roots ==> r in data
    ensures multiset(ForestKeys(forest)) == multiset(KeySet(data))
    ensures forall t :: t in forest ==> WellBuilt(t, data, pm)
    ensures |roots| > 0 ==> |forest| > 0 && forest[0].person == roots[0]
    ensures forest == ForestFor(data, pm, roots)
  {
    var visited;
    forest, visited := BuildRootTrees(data, pm, roots);
    forest, visited := BuildDisconnected(data, pm, forest, visited);
    assert visited == KeySet(data);
  }

  /** `const tree = buildTree(p); if (tree) forest.push(tree);`, shared by both forest loops. */
  method PlantTree(data: seq<Person>, pm: map<int, Person>, p: Person, forest: seq<Tree>, visited: set<int>)
    returns (forest': seq<Tree>, visited': set<int>)
    requires FromData(pm, data)
    requires p in data
    requires visited <= KeySet(data)
    requires multiset(ForestKeys(forest)) == multiset(visited)
    requires forall t :: t in forest ==> WellBuilt(t, data, pm)
    ensures visited <= visited' <= KeySet(data) && p.key in visited'
    ensures multiset(ForestKeys(forest')) == multiset(visited')
    ensures forall t :: t in forest' ==> WellBuilt(t, data, pm)
    ensures p.key in visited ==> forest' == forest && visited' == visited
    ensures p.key !in visited ==> |forest'| == |forest| + 1 && forest'[..|forest|] == forest && forest'[|forest|].person == p
    ensures (forest', visited') == PlantFor(data, pm, p, (forest, visited))
  {
    var tree, v := BuildTree(data, pm, p, visited);
    assert PlantFor(data, pm, p, (forest, visited)) == (forest + (if tree.Some? then [tree.value] else []), v);
    assert forest + [] == forest;
    forest', visited' := forest, v;
    if tree.Some? {
      AppendTreeFromStart(forest, tree.value, visited, v);
      forest' := forest + [tree.value];
      assert forall t :: t in forest' ==> t in forest || t == tree.value;
    }
  }

  /** `roots.forEach(...)`: a tree for each root that is still unvisited. */
  method BuildRootTrees(data: seq<Person>, pm: map<int, Person>, roots: seq<Person>)
    returns (forest: seq<Tree>, visited: set<int>)
    requires FromData(pm, data)
    requires forall r :: r in roots ==> r in data
    ensures visited <= KeySet(data)
    ensures multiset(ForestKeys(forest)) == multiset(visited)
    ensures forall t :: t in forest ==> WellBuilt(t, data, pm)
    ensures |roots| > 0 ==> |forest| > 0 && forest[0].person == roots[0]
    ensures (forest, visited) == PlantAllFor(data, pm, roots, ([], {}))
  {
    visited := {};
    forest := [];
    for i := 0 to |roots|
      invariant visited <= KeySet(data)
      invariant multiset(ForestKeys(forest)) == multiset(visited)
      invariant forall t :: t in forest ==> WellBuilt(t, data, pm)
      invariant i == 0 ==> visited == {} && forest == []
      invariant i > 0 ==> |forest| > 0 && forest[0].person == roots[0]
      invariant (forest, visited) == PlantAllFor(data, pm, roots[..i], ([], {}))
    {
      ghost var before := forest;
      assert roots[..i + 1][..i] == roots[..i];
      forest, visited := PlantTree(data, pm, roots[i], forest, visited);
      assert |before| > 0 ==> forest[0] == before[0];
    }
    assert roots[..|roots|] == roots;
  }

  /** `familyData.forEach(...)`: a tree for each person still unvisited, after which everyone is visited. */
  method BuildDisconnected(data: seq<Person>, pm: map<int, Person>, forest: seq<Tree>, visited: set<int>)
    returns (forest': seq<Tree>, visited': set<int>)
    requires FromData(pm, data)
    requires visited <= KeySet(data)
    requires multiset(ForestKeys(forest)) == multiset(visited)
    requires forall t :: t in forest ==> WellBuilt(t, data, pm)
    ensures visited' == KeySet(data)
    ensures multiset(ForestKeys(forest')) == multiset(visited')
    ensures forall t :: t in forest' ==> WellBuilt(t, data, pm)
    ensures |forest| > 0 ==> |forest'| > 0 && forest'[0] == forest[0]
    ensures (forest', visited') == PlantAllFor(data, pm, data, (forest, visited))
  {
    forest', visited' := forest, visited;
    for i := 0 to |data|
      invariant DisconnectedBuilt(data, pm, forest, visited, i, forest', visited')
    {
      forest', visited' := PlantUnvisited(data, pm, forest, visited, i, forest', visited');
    }
    assert data[..|data|] == data;
    forall k | k in KeySet(data) ensures k in visited' {
      var j :| 0 <= j < |data| && data[j].key == k;
    }
  }

  /** The second pass after `i` people: all of them are planted, and the first tree is still first. */
  ghost predicate DisconnectedBuilt(data: seq<Person>, pm: map<int, Person>, forest: seq<Tree>, visited: set<int>,
                                    i: int, forest': seq<Tree>, visited': set<int>)
    requires FromData(pm, data) && visited <= KeySet(data)
  {
    0 <= i <= |data| &&
    visited' <= KeySet(data) &&
    (forest', visited') == PlantAllFor(data, pm, data[..i], (forest, visited)) &&
    multiset(ForestKeys(forest')) == multiset(visited') &&
    (forall t :: t in forest' ==> WellBuilt(t, data, pm)) &&
    (|forest| > 0 ==> |forest'| > 0 && forest'[0] == forest[0]) &&
    (forall j :: 0 <= j < i ==> data[j].key in visited')
  }

  /** One person of the second pass: planted as a new root unless already placed. */
  method PlantUnvisited(data: seq<Person>, pm: map<int, Person>, forest: seq<Tree>, visited: set<int>, i: int,
                        forest0: seq<Tree>, visited0: set<int>)
    returns (forest': seq<Tree>, visited': set<int>)
    requires FromData(pm, data) && visited <= KeySet(data) && i < |data|
    requires DisconnectedBuilt(data, pm, forest, visited, i, forest0, visited0)
    ensures DisconnectedBuilt(data, pm, forest, visited, i + 1, forest', visited')
  {
    PlantAllStep(data, pm, data, i, (forest, visited));
    forest', visited' := forest0, visited0;
    if data[i].key !in visited0 {
      forest', visited' := PlantTree(data, pm, data[i], forest0, visited0);
      assert forest'[..|forest0|] == forest0;
    } else {
      assert forest0 + [] == forest0;
    }
  }

  /** Planting one more person extends the forest planted so far. */
  lemma PlantAllStep(data: seq<Person>, pm: map<int, Person>, people: seq<Person>, i: int, start: (seq<Tree>, set<int>))
    requires FromData(pm, data) && start.1 <= KeySet(data)
    requires forall p :: p in people ==> p in data
    requires 0 <= i < |people|
    ensures PlantAllFor(data, pm, people[..i + 1], start) == PlantFor(data, pm, people[i], PlantAllFor(data, pm, people[..i], start))
  {
    assert people[..i + 1][..i] == people[..i];
  }

  // ---------------------------------------------------------------- sizing

  /** The parent block: one node, or two nodes with the spouse gap between them. */
  function ParentsWidth(t: Tree): real {
    if t.spouse.Some? then NodeWidth + SpouseSpacing + NodeWidth else NodeWidth
  }

  function WidthOf(t: Tree): real { t.width }

  function SumWidths(cs: seq<Tree>): real { SumOf(WidthOf, cs) }

  /** The children block: their widths with one gap between neighbours, or 0 without children. */
  function ChildrenSpan(cs: seq<Tree>): real {
    if cs == [] then 0.0 else SumWidths(cs) + HorizontalSpacing * (|cs| - 1) as real
  }

  function Max(a: real, b: real): real { if a >= b then a else b }

  /**
   * A sized unit: as wide as the wider of its parent block and its children
   * block, with its centre in the middle, and every child unit sized.
   */
  ghost predicate Sized(t: Tree)
    decreases t
  {
    t.width == Max(ParentsWidth(t), ChildrenSpan(t.children)) &&
    t.centerX == t.width / 2.0 &&
    forall c :: c in t.children ==> Sized(c)
  }

  /** The same units with possibly different sizes. */
  ghost predicate SameShape(s: Tree, t: Tree)
    decreases t
  {
    s.person == t.person && s.spouse == t.spouse && |s.children| == |t.children| &&
    forall i :: 0 <= i < |t.children| ==> SameShape(s.children[i], t.children[i])
  }

  /** Sizing keeps the people: the same keys in the same order. */
  lemma {:induction false} SameShapeKeys(s: Tree, t: Tree)
    requires SameShape(s, t)
    ensures Keys(s) == Keys(t)
    decreases t
  {
    SameShapeForestKeys(s.children, t.children);
  }

  lemma {:induction false} SameShapeForestKeys(ss: seq<Tree>, ts: seq<Tree>)
    requires |ss| == |ts| && forall i :: 0 <= i < |ts| ==> SameShape(ss[i], ts[i])
    ensures ForestKeys(ss) == ForestKeys(ts)
    decreases ts
  {
    if ts != [] {
      var n := |ts| - 1;
      SameShapeForestKeys(ss[..n], ts[..n]);
      SameShapeKeys(ss[n], ts[n]);
    }
  }

  /** `getChildrenTotalWidth`: the accumulation loop computes the children block's width. */
  method ChildrenTotalWidth(cs: seq<Tree>) returns (w: real)
    ensures w == ChildrenSpan(cs)
  {
    if |cs| == 0 {
      return 0.0;
    }
    w := 0.0;
    for i := 0 to |cs|
      invariant w == SumWidths(cs[..i]) + HorizontalSpacing * i as real
    {
      assert cs[..i + 1][..i] == cs[..i];
      w := w + cs[i].width + HorizontalSpacing;
    }
    assert cs[..|cs|] == cs;
    w := w - HorizontalSpacing;
  }

  /**
   * `calculateSize`: children first, then the unit's width is the larger of
   * its parent block and its children block, and its `centerX` is half of
   * that width in both branches of the comparison.
   */
  method CalculateSize(t: Tree) returns (s: Tree)
    ensures Sized(s) && SameShape(s, t)
    ensures s.width == Max(ParentsWidth(s), ChildrenSpan(s.children)) && s.centerX == s.width / 2.0
    ensures s.width >= ParentsWidth(s) >= NodeWidth && s.width >= ChildrenSpan(s.children)
    decreases t
  {
    var sized: seq<Tree> := [];
    for i := 0 to |t.children|
      invariant |sized| == i
      invariant forall j :: 0 <= j < i ==> Sized(sized[j]) && SameShape(sized[j], t.children[j])
    {
      var c := CalculateSize(t.children[i]);
      sized := sized + [c];
    }
    var parentsWidth := if t.spouse.Some? then NodeWidth + SpouseSpacing + NodeWidth else NodeWidth;
    var childrenTotalWidth := ChildrenTotalWidth(sized);
    var width := if parentsWidth >= childrenTotalWidth then parentsWidth else childrenTotalWidth;
    var centerX := if childrenTotalWidth > parentsWidth then childrenTotalWidth / 2.0 else parentsWidth / 2.0;
    s := Tree(t.person, t.spouse, sized, width, centerX);
  }

  // ---------------------------------------------------------------- twin groups

  /** The children whose twin group is `g`, in their order. */
  function TwinsOf(cs: seq<Tree>, g: int): seq<Tree> {
    if cs == [] then []
    else TwinsOf(cs[..|cs| - 1], g) + (if cs[|cs| - 1].person.twinGroup == Some(g) then [cs[|cs| - 1]] else [])
  }

  /** A twin group holds exactly the children with that group number. */
  lemma {:induction false} TwinsOfMembers(cs: seq<Tree>, g: int)
    ensures forall c :: c in TwinsOf(cs, g) <==> c in cs && c.person.twinGroup == Some(g)
  {
    if cs != [] {
      var n := |cs| - 1;
      assert cs == cs[..n] + [cs[n]];
      TwinsOfMembers(cs[..n], g);
    }
  }

  /** `group[0].person.age || 0`. */
  function FirstAge(group: seq<Tree>): int {
    if group == [] then 0 else AgeOrZero(group[0].person)
  }

  /** The sort key of `(a, b) => ageB - ageA`: ascending negated age is descending age. */
  function GroupOrder(group: seq<Tree>): int { -FirstAge(group) }

  /**
   * A group of `children`: a single child without a (truthy) twin group, or
   * all the children that share one twin group, in their order.
   */
  ghost predicate WellGrouped(children: seq<Tree>, group: seq<Tree>) {
    group != [] &&
    ((|group| == 1 && !Truthy(group[0].person.twinGroup) && group[0] in children) ||
     (Truthy(group[0].person.twinGroup) && group == TwinsOf(children, group[0].person.twinGroup.value)))
  }

  /** The elements of the groups listed in `order`, counted with multiplicity. */
  ghost function Pooled(order: seq<int>, m: map<int, seq<Tree>>): multiset<Tree>
    requires forall g :: g in order ==> g in m
  {
    if order == [] then multiset{}
    else
      var n := |order| - 1;
      var last := order[n];
      assert last in order;
      assert forall g :: g in order[..n] ==> g in order;
      Pooled(order[..n], m) + multiset(m[last])
  }

  /** Changing the map at a number not in `order` does not change the pooled elements. */
  lemma {:induction false} PooledIgnores(order: seq<int>, m: map<int, seq<Tree>>, g: int, v: seq<Tree>)
    requires forall h :: h in order ==> h in m
    requires g !in order
    ensures Pooled(order, m[g := v]) == Pooled(order, m)
  {
    if order != [] {
      var n := |order| - 1;
      assert forall h :: h in order[..n] ==> h in order;
      PooledIgnores(order[..n], m, g, v);
    }
  }

  /** Appending `c` to the group of a number listed once in `order` adds `c` to the pool. */
  lemma {:induction false} PooledUpdate(order: seq<int>, m: map<int, seq<Tree>>, g: int, c: Tree)
    requires forall h :: h in order ==> h in m
    requires g in order
    requires forall i, j :: 0 <= i < j < |order| ==> order[i] != order[j]
    ensures Pooled(order, m[g := m[g] + [c]]) == Pooled(order, m) + multiset{c}
  {
    var n := |order| - 1;
    var m' := m[g := m[g] + [c]];
    assert forall h :: h in order[..n] ==> h in order;
    if order[n] == g {
      assert g !in order[..n];
      PooledIgnores(order[..n], m, g, m[g] + [c]);
    } else {
      assert g in order[..n] by { var i :| 0 <= i < |order| && order[i] == g; assert order[..n][i] == g; }
      assert forall i, j :: 0 <= i < j < n ==> order[..n][i] != order[..n][j];
      PooledUpdate(order[..n], m, g, c);
    }
  }

  /** Opening an empty group for a new number adds nothing to the pool. */
  lemma NewGroup(order: seq<int>, m: map<int, seq<Tree>>, g: int)
    requires forall h :: h in order ==> h in m
    requires g !in order
    ensures forall h :: h in order + [g] ==> h in m[g := []]
    ensures Pooled(order + [g], m[g := []]) == Pooled(order, m)
  {
    PooledIgnores(order, m, g, []);
    assert (order + [g])[..|order|] == order;
  }

  /** Extending the children by one extends each twin group by that child at most. */
  lemma TwinsOfStep(cs: seq<Tree>, i: int, g: int)
    requires 0 <= i < |cs|
    ensures TwinsOf(cs[..i + 1], g) == TwinsOf(cs[..i], g) + (if cs[i].person.twinGroup == Some(g) then [cs[i]] else [])
  {
    assert cs[..i + 1][..i] == cs[..i];
  }

  /** Each number in the map is listed once in `order`, and `order` lists nothing else. */
  ghost predicate ListsKeys(order: seq<int>, byGroup: map<int, seq<Tree>>) {
    (forall g :: g in order <==> g in byGroup) &&
    (forall a, b :: 0 <= a < b < |order| ==> order[a] != order[b])
  }

  /** The map holds exactly the nonempty twin groups of `prefix`. */
  ghost predicate GroupsMatch(prefix: seq<Tree>, byGroup: map<int, seq<Tree>>) {
    (forall g :: g in byGroup ==> g != 0 && byGroup[g] != [] && byGroup[g] == TwinsOf(prefix, g)) &&
    (forall g :: g != 0 && g !in byGroup ==> TwinsOf(prefix, g) == [])
  }

  /** The collected groups and the singles hold the children of `prefix`, each once. */
  ghost predicate Accounted(prefix: seq<Tree>, order: seq<int>, byGroup: map<int, seq<Tree>>, singles: seq<Tree>)
    requires forall g :: g in order ==> g in byGroup
  {
    multiset(prefix) == Pooled(order, byGroup) + multiset(singles)
  }

  /**
   * The state of `groupChildrenByTwin`'s first pass after the first `i`
   * children: `order` lists the map's numbers once each in insertion order,
   * each number's list is exactly its twins so far, and the untwinned
   * children so far are in `singles`.
   */
  ghost predicate Separated(children: seq<Tree>, i: int, order: seq<int>, byGroup: map<int, seq<Tree>>, singles: seq<Tree>) {
    0 <= i <= |children| &&
    ListsKeys(order, byGroup) &&
    GroupsMatch(children[..i], byGroup) &&
    (forall s :: s in singles ==> s in children && !Truthy(s.person.twinGroup)) &&
    Accounted(children[..i], order, byGroup, singles)
  }

  /** One child of the first pass: a twin joins its group's list, any other child joins `singles`. */
  method SeparateOne(children: seq<Tree>, i: int, order: seq<int>, byGroup: map<int, seq<Tree>>, singles: seq<Tree>)
    returns (order': seq<int>, byGroup': map<int, seq<Tree>>, singles': seq<Tree>)
    requires i < |children| && Separated(children, i, order, byGroup, singles)
    ensures Separated(children, i + 1, order', byGroup', singles')
  {
    var c := children[i];
    if Truthy(c.person.twinGroup) {
      order', byGroup' := AddTwin(children, i, order, byGroup, singles);
      singles' := singles;
    } else {
      singles' := singles + [c];
      order', byGroup' := order, byGroup;
      SingleKeepsGroups(children, i, byGroup);
      AccountedSingle(children, i, order, byGroup, singles);
    }
  }

  /** `twinMap.get(g).push(child)`, opening the list first when `g` is new. */
  method AddTwin(children: seq<Tree>, i: int, order: seq<int>, byGroup: map<int, seq<Tree>>, singles: seq<Tree>)
    returns (order': seq<int>, byGroup': map<int, seq<Tree>>)
    requires i < |children| && Separated(children, i, order, byGroup, singles)
    requires Truthy(children[i].person.twinGroup)
    ensures Separated(children, i + 1, order', byGroup', singles)
  {
    var c := children[i];
    var g := c.person.twinGroup.value;
    if g in byGroup {
      order', byGroup' := order, byGroup[g := byGroup[g] + [c]];
      JoinTwinGroup(children, i, order, byGroup, singles, g);
    } else {
      var m := byGroup[g := []];
      order', byGroup' := order + [g], m[g := m[g] + [c]];
      OpenTwinGroup(children, i, order, byGroup, singles, g, m);
    }
  }

  /** A twin whose group is already open joins the end of its list. */
  lemma JoinTwinGroup(children: seq<Tree>, i: int, order: seq<int>, byGroup: map<int, seq<Tree>>, singles: seq<Tree>, g: int)
    requires i < |children| && Separated(children, i, order, byGroup, singles)
    requires children[i].person.twinGroup == Some(g) && g != 0 && g in byGroup
    ensures Separated(children, i + 1, order, byGroup[g := byGroup[g] + [children[i]]], singles)
  {
    var m' := byGroup[g := byGroup[g] + [children[i]]];
    TwinJoinsGroups(children, i, byGroup, g, m');
    PooledUpdate(order, byGroup, g, children[i]);
    AccountedTwin(children, i, order, byGroup, singles, g, m');
  }

  /** A twin whose group is new opens a list for it, at the end of the insertion order, holding just that twin. */
  lemma OpenTwinGroup(children: seq<Tree>, i: int, order: seq<int>, byGroup: map<int, seq<Tree>>, singles: seq<Tree>, g: int,
                      m: map<int, seq<Tree>>)
    requires i < |children| && Separated(children, i, order, byGroup, singles)
    requires children[i].person.twinGroup == Some(g) && g != 0 && g !in byGroup
    requires m == byGroup[g := []]
    ensures Separated(children, i + 1, order + [g], m[g := m[g] + [children[i]]], singles)
  {
    var m' := m[g := m[g] + [children[i]]];
    OpenedGroupMatches(children, i, order, byGroup, g, m, m');
    OpenedGroupAccounted(children, i, order, byGroup, singles, g, m, m');
  }

  /** The list opened for a new number holds exactly that number's twins so far. */
  lemma OpenedGroupMatches(children: seq<Tree>, i: int, order: seq<int>, byGroup: map<int, seq<Tree>>, g: int,
                           m: map<int, seq<Tree>>, m': map<int, seq<Tree>>)
    requires 0 <= i < |children| && ListsKeys(order, byGroup) && GroupsMatch(children[..i], byGroup)
    requires children[i].person.twinGroup == Some(g) && g != 0 && g !in byGroup
    requires m == byGroup[g := []] && m' == m[g := m[g] + [children[i]]]
    ensures ListsKeys(order + [g], m') && GroupsMatch(children[..i + 1], m')
  {
    NewListsKeys(order, byGroup, g, m');
    assert TwinsOf(children[..i], g) == [];
    TwinJoinsGroups(children, i, m, g, m');
  }

  /** Opening a list for a new number loses no child already seen and adds the new twin. */
  lemma OpenedGroupAccounted(children: seq<Tree>, i: int, order: seq<int>, byGroup: map<int, seq<Tree>>, singles: seq<Tree>, g: int,
                             m: map<int, seq<Tree>>, m': map<int, seq<Tree>>)
    requires 0 <= i < |children| && ListsKeys(order, byGroup) && Accounted(children[..i], order, byGroup, singles)
    requires g !in byGroup
    requires m == byGroup[g := []] && m' == m[g := m[g] + [children[i]]]
    ensures Accounted(children[..i + 1], order + [g], m', singles)
  {
    NewGroup(order, byGroup, g);
    PooledUpdate(order + [g], m, g, children[i]);
    AccountedTwin(children, i, order + [g], m, singles, g, m');
  }

  /** Listing a new number keeps `order` and the map's numbers in step. */
  lemma NewListsKeys(order: seq<int>, byGroup: map<int, seq<Tree>>, g: int, m': map<int, seq<Tree>>)
    requires ListsKeys(order, byGroup) && g !in byGroup
    requires m'.Keys == byGroup.Keys + {g}
    ensures ListsKeys(order + [g], m')
  {
    var order' := order + [g];
    forall a, b | 0 <= a < b < |order'| ensures order'[a] != order'[b] {
      if b == |order| { assert order'[a] in order; }
    }
  }

  /** The groups stay the twin groups of the longer prefix when a twin joins its own group. */
  lemma TwinJoinsGroups(children: seq<Tree>, i: int, m: map<int, seq<Tree>>, g: int, m': map<int, seq<Tree>>)
    requires 0 <= i < |children| && children[i].person.twinGroup == Some(g) && g != 0 && g in m
    requires forall h :: h in m && h != g ==> h != 0 && m[h] != [] && m[h] == TwinsOf(children[..i], h)
    requires m[g] == TwinsOf(children[..i], g)
    requires forall h :: h != 0 && h !in m ==> TwinsOf(children[..i], h) == []
    requires m' == m[g := m[g] + [children[i]]]
    ensures GroupsMatch(children[..i + 1], m')
  {
    forall h ensures TwinsOf(children[..i + 1], h) == TwinsOf(children[..i], h) + (if h == g then [children[i]] else []) {
      TwinsOfStep(children, i, h);
    }
  }

  /** An untwinned child leaves every twin group as it was. */
  lemma SingleKeepsGroups(children: seq<Tree>, i: int, m: map<int, seq<Tree>>)
    requires 0 <= i < |children| && !Truthy(children[i].person.twinGroup)
    requires GroupsMatch(children[..i], m)
    ensures GroupsMatch(children[..i + 1], m)
  {
    forall h | h != 0 ensures TwinsOf(children[..i + 1], h) == TwinsOf(children[..i], h) {
      TwinsOfStep(children, i, h);
    }
  }

  /** A twin added to its group's list is accounted for. */
  lemma AccountedTwin(children: seq<Tree>, i: int, order: seq<int>, m: map<int, seq<Tree>>, singles: seq<Tree>, g: int, m': map<int, seq<Tree>>)
    requires 0 <= i < |children|
    requires forall h :: h in order ==> h in m
    requires forall h :: h in order ==> h in m'
    requires Accounted(children[..i], order, m, singles)
    requires Pooled(order, m') == Pooled(order, m) + multiset{children[i]}
    ensures Accounted(children[..i + 1], order, m', singles)
  {
    assert children[..i + 1] == children[..i] + [children[i]];
  }

  /** An untwinned child added to `singles` is accounted for. */
  lemma AccountedSingle(children: seq<Tree>, i: int, order: seq<int>, m: map<int, seq<Tree>>, singles: seq<Tree>)
    requires 0 <= i < |children|
    requires forall h :: h in order ==> h in m
    requires Accounted(children[..i], order, m, singles)
    ensures Accounted(children[..i + 1], order, m, singles + [children[i]])
  {
    assert children[..i + 1] == children[..i] + [children[i]];
  }

  /**
   * The `children.forEach` of `groupChildrenByTwin`: each child with a truthy
   * twin group is appended to its group's list (a new number is appended to
   * the map's key order), every other child to `singles`.
   */
  method SeparateTwins(children: seq<Tree>) returns (order: seq<int>, byGroup: map<int, seq<Tree>>, singles: seq<Tree>)
    ensures Separated(children, |children|, order, byGroup, singles)
  {
    order, byGroup, singles := [], map[], [];
    for i := 0 to |children|
      invariant Separated(children, i, order, byGroup, singles)
    {
      order, byGroup, singles := SeparateOne(children, i, order, byGroup, singles);
    }
  }

  /** `twinMap.forEach(group => result.push(group))`: the twin groups in their numbers' insertion order. */
  method PushTwinGroups(children: seq<Tree>, order: seq<int>, byGroup: map<int, seq<Tree>>) returns (r: seq<seq<Tree>>)
    requires forall g :: g in order ==> g in byGroup
    requires GroupsMatch(children, byGroup)
    ensures |r| == |order|
    ensures multiset(Flatten(r)) == Pooled(order, byGroup)
    ensures forall grp :: grp in r ==> WellGrouped(children, grp)
  {
    r := [];
    for j := 0 to |order|
      invariant |r| == j
      invariant multiset(Flatten(r)) == Pooled(order[..j], byGroup)
      invariant forall grp :: grp in r ==> WellGrouped(children, grp)
    {
      PushedGroup(children, order, byGroup, j, r);
      r := r + [byGroup[order[j]]];
    }
    assert order[..|order|] == order;
  }

  /** Pushing the list of the `j`-th number keeps the pooled count and every list well grouped. */
  lemma PushedGroup(children: seq<Tree>, order: seq<int>, byGroup: map<int, seq<Tree>>, j: int, r: seq<seq<Tree>>)
    requires forall g :: g in order ==> g in byGroup
    requires GroupsMatch(children, byGroup)
    requires 0 <= j < |order| && order[j] in byGroup
    requires multiset(Flatten(r)) == Pooled(order[..j], byGroup)
    requires forall grp :: grp in r ==> WellGrouped(children, grp)
    ensures multiset(Flatten(r + [byGroup[order[j]]])) == Pooled(order[..j + 1], byGroup)
    ensures forall grp :: grp in r + [byGroup[order[j]]] ==> WellGrouped(children, grp)
  {
    var g := order[j];
    assert order[..j + 1][..j] == order[..j];
    FlattenPush(r, byGroup[g]);
    TwinsOfMembers(children, g);
    assert byGroup[g][0] in TwinsOf(children, g);
    assert WellGrouped(children, byGroup[g]);
  }

  /** `singles.forEach(s => result.push([s]))`: one group per untwinned child, in child order. */
  method PushSingles(children: seq<Tree>, groups: seq<seq<Tree>>, singles: seq<Tree>) returns (r: seq<seq<Tree>>)
    requires forall s :: s in singles ==> s in children && !Truthy(s.person.twinGroup)
    requires forall grp :: grp in groups ==> WellGrouped(children, grp)
    ensures |r| == |groups| + |singles| && r[..|groups|] == groups
    ensures forall j :: 0 <= j < |singles| ==> r[|groups| + j] == [singles[j]]
    ensures multiset(Flatten(r)) == multiset(Flatten(groups)) + multiset(singles)
    ensures forall grp :: grp in r ==> WellGrouped(children, grp)
  {
    r := groups;
    for j := 0 to |singles|
      invariant SinglesPushed(children, groups, singles, j, r)
    {
      PushedSingle(children, groups, singles, j, r);
      r := r + [[singles[j]]];
    }
    assert singles[..|singles|] == singles;
  }

  /** After `j` singles: the groups, then one one-child group per single, all well grouped. */
  ghost predicate SinglesPushed(children: seq<Tree>, groups: seq<seq<Tree>>, singles: seq<Tree>, j: int, r: seq<seq<Tree>>) {
    0 <= j <= |singles| &&
    |r| == |groups| + j && r[..|groups|] == groups &&
    (forall k :: 0 <= k < j ==> r[|groups| + k] == [singles[k]]) &&
    multiset(Flatten(r)) == multiset(Flatten(groups)) + multiset(singles[..j]) &&
    (forall grp :: grp in r ==> WellGrouped(children, grp))
  }

  /** Pushing the `j`-th single as a group of its own. */
  lemma PushedSingle(children: seq<Tree>, groups: seq<seq<Tree>>, singles: seq<Tree>, j: int, r: seq<seq<Tree>>)
    requires forall s :: s in singles ==> s in children && !Truthy(s.person.twinGroup)
    requires j < |singles| && SinglesPushed(children, groups, singles, j, r)
    ensures SinglesPushed(children, groups, singles, j + 1, r + [[singles[j]]])
  {
    var r' := r + [[singles[j]]];
    FlattenPush(r, [singles[j]]);
    assert singles[..j + 1] == singles[..j] + [singles[j]];
    assert r'[..|groups|] == r[..|groups|];
    assert WellGrouped(children, [singles[j]]);
    forall k | 0 <= k < j + 1 ensures r'[|groups| + k] == [singles[k]] {
    }
  }

  /**
   * The groups partition the children (each child exactly once), each group
   * is one untwinned child or a whole twin group, and the groups' first
   * members' ages never increase from left to right.
   */
  ghost predicate GroupedChildren(children: seq<Tree>, groups: seq<seq<Tree>>) {
    multiset(Flatten(groups)) == multiset(children) &&
    (forall grp :: grp in groups ==> WellGrouped(children, grp)) &&
    (forall i, j :: 0 <= i < j < |groups| ==> FirstAge(groups[i]) >= FirstAge(groups[j]))
  }

  /**
   * `groupChildrenByTwin`: the children partitioned into twin groups (in the
   * order their numbers first occur) and single-child groups (in child
   * order), then stably sorted by the first member's age, oldest first.
   * Every child lands in exactly one group, every group is a single
   * untwinned child or a whole twin group, and the groups' ages never
   * increase from left to right.
   */
  method GroupChildrenByTwin(children: seq<Tree>) returns (groups: seq<seq<Tree>>)
    ensures GroupedChildren(children, groups)
  {
    var order, byGroup, singles := SeparateTwins(children);
    assert children[..|children|] == children;
    var unsorted := PushTwinGroups(children, order, byGroup);
    unsorted := PushSingles(children, unsorted, singles);
    groups := StableSortBy(unsorted, GroupOrder);
    ConcatMapPermutation(h => h, groups, unsorted);
    forall grp | grp in groups ensures WellGrouped(children, grp) {
      assert grp in multiset(unsorted);
    }
    forall i, j | 0 <= i < j < |groups| ensures FirstAge(groups[i]) >= FirstAge(groups[j]) {
      assert GroupOrder(groups[i]) <= GroupOrder(groups[j]);
    }
  }
}
