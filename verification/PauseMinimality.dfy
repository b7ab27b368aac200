/** cortexgrid/_model_scheduler.py: whether the models a pause decision stops
    are the fewest that would do, as docs/cortexgrid/model-serving.md has it.
    The search takes the shortest sufficient prefix of the least-recently-used
    order, so they are on every node whose groups are interchangeable, and on
    no other node whatever the order of use and the need may be. */
module PauseMinimality {
  import opened Common
  import opened Graph
  import opened Sorting
  import opened Sums
  import opened PauseSearch
  import opened PauseDecision

  /******* The groups of one node *******/

  ghost predicate Nested(groups: Edges<string>) {
    forall x :: x in groups ==> x in groups[x] && ClosedUnder(groups, groups[x])
  }

  ghost predicate ClosedUnder(groups: Edges<string>, names: set<string>) {
    forall x :: x in names ==> x in groups && groups[x] <= names
  }

  /** The pausable models with a replica on the node. */
  ghost function Here(node: Node, groups: Edges<string>): set<string> {
    set x | x in node.held.at && x in groups
  }

  /** Pausing `names` frees something on the node. */
  ghost predicate Heavy(node: Node, names: set<string>) {
    exists name :: HeldBy(node, names, name) > 0.0
  }

  ghost function HeavyGroups(node: Node, groups: Edges<string>): set<set<string>> {
    set x | x in Here(node, groups) && Heavy(node, groups[x]) :: groups[x]
  }

  ghost function Union(groups: set<set<string>>): set<string> {
    set g, x | g in groups && x in g :: x
  }

  /** `names` hold at least what `others` hold, of every resource. */
  ghost predicate Covers(node: Node, names: set<string>, others: set<string>) {
    forall name :: HeldBy(node, others, name) <= HeldBy(node, names, name)
  }

  ghost predicate Alike(node: Node, names: set<string>, others: set<string>) {
    |names| == |others| && Covers(node, names, others) && Covers(node, others, names)
  }

  ghost predicate EquallyMany(node: Node, groups: Edges<string>, s: set<set<string>>, t: set<set<string>>) {
    s <= HeavyGroups(node, groups) && t <= HeavyGroups(node, groups) && |s| == |t|
  }

  /** It does not matter which groups go: equally many that free something are
      equally many models and hold the same, and a group that frees nothing
      goes along with each of them. */
  ghost predicate Interchangeable(node: Node, groups: Edges<string>) {
    && (forall s, t :: EquallyMany(node, groups, s, t) ==> Alike(node, Union(s), Union(t)))
    && (forall x, g :: x in Here(node, groups) && !Heavy(node, groups[x]) && g in HeavyGroups(node, groups) ==>
          groups[x] <= g)
  }

  /** Some order in which the node's pausable models may have been used. */
  ghost predicate IsOrder(node: Node, groups: Edges<string>, order: seq<string>) {
    Distinct(order) && ToSet(order) == Here(node, groups)
  }

  ghost predicate FewestInOrder(needed: Resources, node: Node, groups: Edges<string>, order: seq<string>) {
    forall count: nat, names ::
      ShortestSufficient(needed, node, groups, order, count) && ClosedUnder(groups, names) && Frees(needed, node, names)
      ==> |GroupsOf(groups, order[..count])| <= |names|
  }

  /** Whatever is needed that the node has no room for, and in whatever order
      its models were used. */
  ghost predicate AlwaysFewest(node: Node, groups: Edges<string>) {
    forall order, needed ::
      IsOrder(node, groups, order) && !HasRoomFor(needed, node.free) ==> FewestInOrder(needed, node, groups, order)
  }

  /******* What sets of models hold *******/

  lemma HeldGrows(node: Node, names: set<string>, more: set<string>)
    requires HoldsNoDebt(node) && names <= more
    ensures Covers(node, more, names)
  {
    forall name ensures HeldBy(node, names, name) <= HeldBy(node, more, name) {
      SumMonotone(names, more, (model: string) => Held(node, model, name));
    }
  }

  lemma NothingHeld(node: Node)
    ensures forall name :: HeldBy(node, {}, name) == 0.0
  {
  }

  lemma HeldByOne(node: Node, model: string, name: string)
    ensures HeldBy(node, {model}, name) == Held(node, model, name)
  {
    SumTake({model}, model, (m: string) => Held(node, m, name));
    assert {model} - {model} == {};
  }

  /** Members that hold nothing of a resource do not matter for it. */
  lemma HeldByPart(node: Node, names: set<string>, part: set<string>, name: string)
    requires part <= names && forall x :: x in names && x !in part ==> Held(node, x, name) == 0.0
    ensures HeldBy(node, names, name) == HeldBy(node, part, name)
  {
    SumRestrict(names, part, (model: string) => Held(node, model, name));
    assert names * part == part;
  }

  lemma CoversFrees(node: Node, names: set<string>, others: set<string>, needed: Resources)
    requires Covers(node, names, others) && Frees(needed, node, others)
    ensures Frees(needed, node, names)
  {
    forall name | name in needed ensures HeldBy(node, others, name) <= HeldBy(node, names, name) {
    }
  }

  lemma LightFreesNothing(node: Node, names: set<string>, needed: Resources)
    requires !Heavy(node, names) && Frees(needed, node, names)
    ensures HasRoomFor(needed, node.free)
  {
    forall name ensures HeldBy(node, names, name) <= 0.0 {
    }
  }

  /** The groups within a closed set that free something on the node. */
  ghost function HeavyIn(node: Node, groups: Edges<string>, names: set<string>): set<set<string>> {
    set g | g in HeavyGroups(node, groups) && g <= names
  }

  lemma HeavyInHoldsAll(node: Node, groups: Edges<string>, names: set<string>)
    requires HoldsNoDebt(node) && Nested(groups) && ClosedUnder(groups, names)
    ensures Union(HeavyIn(node, groups, names)) <= names
    ensures Covers(node, Union(HeavyIn(node, groups, names)), names)
  {
    hide HoldsNoDebt, Nested;
    var part := Union(HeavyIn(node, groups, names));
    forall name ensures HeldBy(node, names, name) <= HeldBy(node, part, name) {
      forall x | x in names ensures x in part || Held(node, x, name) == 0.0 {
        if Held(node, x, name) != 0.0 {
          HolderIsHeavy(node, groups, x, name);
          assert groups[x] in HeavyIn(node, groups, names);
        }
      }
      HeldByPart(node, names, part, name);
    }
  }

  /** A model that holds something makes its group heavy. */
  lemma HolderIsHeavy(node: Node, groups: Edges<string>, x: string, name: string)
    requires HoldsNoDebt(node) && Nested(groups) && x in groups && Held(node, x, name) != 0.0
    ensures x in Here(node, groups) && x in groups[x] && groups[x] in HeavyGroups(node, groups)
  {
    assert Held(node, x, name) > 0.0;
    HeldByOne(node, x, name);
    HeldGrows(node, {x}, groups[x]);
    assert HeldBy(node, {x}, name) <= HeldBy(node, groups[x], name);
  }

  lemma PrefixIsClosed(node: Node, groups: Edges<string>, order: seq<string>, count: nat)
    requires Nested(groups) && IsOrder(node, groups, order) && count <= |order|
    ensures ClosedUnder(groups, GroupsOf(groups, order[..count]))
  {
    var names := GroupsOf(groups, order[..count]);
    forall x | x in names ensures x in groups && groups[x] <= names {
      var y :| y in order[..count] && x in Targets(groups, y);
      assert ClosedUnder(groups, groups[y]);
      assert groups[x] <= groups[y];
    }
  }

  lemma {:induction false} SubsetOfSize<T>(s: set<T>, size: nat) returns (t: set<T>)
    requires size <= |s|
    ensures t <= s && |t| == size
    decreases |s|
  {
    if size == |s| {
      t := s;
    } else {
      var x :| x in s;
      t := SubsetOfSize(s - {x}, size);
    }
  }

  lemma {:induction false} SubsetSmaller<T>(s: set<T>, t: set<T>)
    requires s <= t
    ensures |s| <= |t|
    ensures |s| == |t| ==> s == t
    decreases |t|
  {
    if x :| x in s {
      SubsetSmaller(s - {x}, t - {x});
      if |s| == |t| {
        assert s == s - {x} + {x} && t == t - {x} + {x};
      }
    } else {
      assert s == {};
    }
  }

  /******* Interchangeable groups: the search finds the fewest *******/

  lemma HeavyGroupsAlike(node: Node, groups: Edges<string>, g: set<string>, h: set<string>)
    requires Interchangeable(node, groups)
    requires g in HeavyGroups(node, groups) && h in HeavyGroups(node, groups)
    ensures |g| == |h|
  {
    assert EquallyMany(node, groups, {g}, {h});
    assert Union({g}) == g && Union({h}) == h;
  }

  /** A heavy group within what a prefix pauses is that of one of its models. */
  lemma HeavyInPrefix(node: Node, groups: Edges<string>, order: seq<string>, count: nat, g: set<string>)
    requires HoldsNoDebt(node) && Nested(groups) && Interchangeable(node, groups) && IsOrder(node, groups, order)
    requires count <= |order| && g in HeavyIn(node, groups, GroupsOf(groups, order[..count]))
    ensures exists i :: 0 <= i < count && order[i] in groups && g == groups[order[i]]
  {
    hide Interchangeable, HoldsNoDebt;
    var x :| x in Here(node, groups) && g == groups[x] && Heavy(node, g);
    assert x in g && x in GroupsOf(groups, order[..count]);
    var y :| y in order[..count] && x in Targets(groups, y);
    var i :| 0 <= i < count && order[i] == y;
    assert y in ToSet(order) && y in Here(node, groups);
    assert ClosedUnder(groups, groups[y]) && g <= groups[y];
    HeldGrows(node, g, groups[y]);
    var name :| HeldBy(node, g, name) > 0.0;
    assert HeldBy(node, groups[y], name) > 0.0;
    assert groups[y] in HeavyGroups(node, groups);
    HeavyGroupsAlike(node, groups, g, groups[y]);
    SubsetSmaller(g, groups[y]);
  }

  /** One more model brings at most one more heavy group. */
  lemma OneMoreHeavy(node: Node, groups: Edges<string>, order: seq<string>, count: nat)
    requires HoldsNoDebt(node) && Nested(groups) && Interchangeable(node, groups) && IsOrder(node, groups, order)
    requires 1 <= count <= |order|
    ensures |HeavyIn(node, groups, GroupsOf(groups, order[..count]))| <=
            |HeavyIn(node, groups, GroupsOf(groups, order[..count - 1]))| + 1
  {
    hide Interchangeable, HoldsNoDebt, Nested;
    var last := Targets(groups, order[count - 1]);
    var more := HeavyIn(node, groups, GroupsOf(groups, order[..count]));
    var fewer := HeavyIn(node, groups, GroupsOf(groups, order[..count - 1]));
    forall g | g in more ensures g in fewer + {last} {
      HeavyInPrefix(node, groups, order, count, g);
      var i :| 0 <= i < count && order[i] in groups && g == groups[order[i]];
      if i < count - 1 {
        assert order[i] in order[..count - 1];
        assert forall x :: x in g ==> x in Targets(groups, order[i]);
      }
    }
    SubsetSmaller(more, fewer + {last});
  }

  /** With a heavy group in it, a prefix pauses the members of its heavy groups
      and no others. */
  lemma PrefixIsHeavyUnion(node: Node, groups: Edges<string>, order: seq<string>, count: nat)
    requires Nested(groups) && Interchangeable(node, groups) && IsOrder(node, groups, order) && count <= |order|
    requires HeavyIn(node, groups, GroupsOf(groups, order[..count])) != {}
    ensures GroupsOf(groups, order[..count]) <= Union(HeavyIn(node, groups, GroupsOf(groups, order[..count])))
  {
    var names := GroupsOf(groups, order[..count]);
    var heavy := HeavyIn(node, groups, names);
    forall x | x in names ensures x in Union(heavy) {
      var y :| y in order[..count] && x in Targets(groups, y);
      assert y in ToSet(order) && y in Here(node, groups);
      var g :| g in heavy;
      if Heavy(node, groups[y]) {
        assert groups[y] <= names;
        assert groups[y] in heavy && x in groups[y];
      } else {
        assert groups[y] <= g && x in g;
      }
    }
  }

  lemma FewestIfInterchangeable(
    needed: Resources, node: Node, groups: Edges<string>, order: seq<string>, count: nat, names: set<string>)
    requires HoldsNoDebt(node) && Nested(groups) && Interchangeable(node, groups) && IsOrder(node, groups, order)
    requires !HasRoomFor(needed, node.free) && ShortestSufficient(needed, node, groups, order, count)
    requires ClosedUnder(groups, names) && Frees(needed, node, names)
    ensures |GroupsOf(groups, order[..count])| <= |names|
  {
    hide HoldsNoDebt, Nested, Interchangeable, IsOrder, HasRoomFor, Frees, GroupsOf, ClosedUnder, HeavyIn;
    var paused, before := GroupsOf(groups, order[..count]), GroupsOf(groups, order[..count - 1]);
    var inPaused, inBefore := HeavyIn(node, groups, paused), HeavyIn(node, groups, before);
    var inNames := HeavyIn(node, groups, names);
    PrefixIsClosed(node, groups, order, count);
    HeavyInHoldsAll(node, groups, names);
    HeavyInHoldsAll(node, groups, paused);
    OneMoreHeavy(node, groups, order, count);
    SomethingHeavy(node, groups, names, needed);
    SomethingHeavy(node, groups, paused, needed);
    HeavyInIsHeavy(node, groups, names);
    HeavyInIsHeavy(node, groups, paused);
    HeavyInIsHeavy(node, groups, before);
    if |inNames| < |inPaused| {
      var some := SubsetOfSize(inBefore, |inNames|);
      AlikeIfInterchangeable(node, groups, some, inNames);
      UnionWithin(node, groups, some, before);
      HeldGrows(node, Union(some), before);
      CoversTransitive(node, before, Union(some), Union(inNames));
      CoversTransitive(node, before, Union(inNames), names);
      CoversFrees(node, before, names, needed);
      NoModelsNoGroups(node, groups, order, count - 1);
    } else {
      var some := SubsetOfSize(inNames, |inPaused|);
      AlikeIfInterchangeable(node, groups, some, inPaused);
      PrefixIsHeavyUnion(node, groups, order, count);
      UnionWithin(node, groups, some, names);
      SubsetSmaller(Union(some), names);
      SubsetSmaller(paused, Union(inPaused));
    }
  }

  lemma CoversTransitive(node: Node, a: set<string>, b: set<string>, c: set<string>)
    requires Covers(node, a, b) && Covers(node, b, c)
    ensures Covers(node, a, c)
  {
    forall name ensures HeldBy(node, c, name) <= HeldBy(node, a, name) {
      assert HeldBy(node, c, name) <= HeldBy(node, b, name);
    }
  }

  lemma AlikeIfInterchangeable(node: Node, groups: Edges<string>, s: set<set<string>>, t: set<set<string>>)
    requires Interchangeable(node, groups) && EquallyMany(node, groups, s, t)
    ensures Alike(node, Union(s), Union(t))
  {
  }

  lemma HeavyInIsHeavy(node: Node, groups: Edges<string>, names: set<string>)
    ensures HeavyIn(node, groups, names) <= HeavyGroups(node, groups)
  {
  }

  lemma UnionWithin(node: Node, groups: Edges<string>, some: set<set<string>>, names: set<string>)
    requires some <= HeavyIn(node, groups, names)
    ensures Union(some) <= names
  {
  }

  /** A set that makes room has a group that frees something. */
  lemma SomethingHeavy(node: Node, groups: Edges<string>, names: set<string>, needed: Resources)
    requires HoldsNoDebt(node) && Nested(groups) && ClosedUnder(groups, names)
    requires Frees(needed, node, names) && !HasRoomFor(needed, node.free)
    ensures HeavyIn(node, groups, names) != {}
  {
    hide HoldsNoDebt, Nested, ClosedUnder, HasRoomFor, Frees;
    HeavyInHoldsAll(node, groups, names);
    if HeavyIn(node, groups, names) == {} {
      assert Union(HeavyIn(node, groups, names)) == {};
      NothingHeld(node);
      forall name ensures HeldBy(node, names, name) <= 0.0 {
      }
      LightFreesNothing(node, names, needed);
    }
  }

  lemma NoModelsNoGroups(node: Node, groups: Edges<string>, order: seq<string>, count: nat)
    requires count <= |order| && HeavyIn(node, groups, GroupsOf(groups, order[..count])) != {}
    ensures Nested(groups) ==> count >= 1
  {
    if Nested(groups) {
      var g :| g in HeavyIn(node, groups, GroupsOf(groups, order[..count]));
      var x :| x in Here(node, groups) && g == groups[x];
      assert x in g;
    }
  }

  /******* The fewest in every order and for every need: interchangeable *******/

  ghost function ResourceNames(node: Node): set<string> {
    set model, name | model in node.held.at && name in node.held.at[model] :: name
  }

  /** What fits exactly where stopping `names` leaves room. */
  ghost function RoomOf(node: Node, names: set<string>): Resources {
    map name | name in ResourceNames(node) ::
      Amount(node.free, name) + HeldBy(node, names, name) + RESOURCE_FLOAT_TOLERANCE
  }

  lemma FreesRoomOfIffCovers(node: Node, names: set<string>, others: set<string>)
    ensures Frees(RoomOf(node, others), node, names) <==> Covers(node, names, others)
  {
    forall name | name !in ResourceNames(node)
      ensures HeldBy(node, others, name) == 0.0 && HeldBy(node, names, name) == 0.0
    {
      forall model ensures Held(node, model, name) == 0.0 {
      }
      SumEqual(others, (model: string) => Held(node, model, name), 0.0);
      SumEqual(names, (model: string) => Held(node, model, name), 0.0);
    }
    if Frees(RoomOf(node, others), node, names) {
      forall name ensures HeldBy(node, others, name) <= HeldBy(node, names, name) {
        assert name in ResourceNames(node) ==> name in RoomOf(node, others);
      }
    }
  }

  lemma NoRoomForHeavy(node: Node, names: set<string>)
    requires Heavy(node, names)
    ensures !HasRoomFor(RoomOf(node, names), node.free)
  {
    var name :| HeldBy(node, names, name) > 0.0;
    if name !in ResourceNames(node) {
      forall model ensures Held(node, model, name) == 0.0 {
      }
      SumEqual(names, (model: string) => Held(node, model, name), 0.0);
    }
    assert name in RoomOf(node, names);
  }

  lemma {:induction false} ListingOf<T>(s: set<T>) returns (xs: seq<T>)
    ensures Distinct(xs) && ToSet(xs) == s
    decreases |s|
  {
    if x :| x in s {
      var rest := ListingOf(s - {x});
      assert x !in ToSet(rest);
      xs := [x] + rest;
      assert ToSet(xs) == {x} + ToSet(rest);
    } else {
      xs := [];
    }
  }

  /** An order in which these models come first. */
  lemma OrderFrom(node: Node, groups: Edges<string>, first: seq<string>) returns (order: seq<string>)
    requires Distinct(first) && ToSet(first) <= Here(node, groups)
    ensures IsOrder(node, groups, order) && first <= order
  {
    var rest := ListingOf(Here(node, groups) - ToSet(first));
    order := first + rest;
    assert forall x :: x in rest ==> x in ToSet(rest);
    assert forall x :: x in first ==> x in ToSet(first);
    assert ToSet(order) == ToSet(first) + ToSet(rest);
    DistinctConcat(first, rest);
  }

  lemma DistinctConcat<T>(first: seq<T>, rest: seq<T>)
    requires Distinct(first) && Distinct(rest) && forall x :: x in first ==> x !in rest
    ensures Distinct(first + rest)
  {
    var whole := first + rest;
    forall i, j | 0 <= i < j < |whole| ensures whole[i] != whole[j] {
      if i < |first| <= j {
        assert whole[i] in first && whole[j] in rest;
      }
    }
  }

  /** The groups of the first `count` models pause all of these groups. */
  lemma PrefixPauses(groups: Edges<string>, order: seq<string>, count: nat, x: string)
    requires count <= |order| && x in order[..count] && x in groups
    ensures groups[x] <= GroupsOf(groups, order[..count])
  {
    forall y | y in groups[x] ensures y in GroupsOf(groups, order[..count]) {
      assert y in Targets(groups, x);
    }
  }

  /** What the search answers when exactly the room of `others` is needed. */
  lemma AnswerInOrder(node: Node, groups: Edges<string>, order: seq<string>, others: set<string>) returns (count: nat)
    requires HoldsNoDebt(node) && Nested(groups) && AlwaysFewest(node, groups) && IsOrder(node, groups, order)
    requires ClosedUnder(groups, others) && Heavy(node, others)
    ensures 1 <= count <= |order| && Covers(node, GroupsOf(groups, order[..count]), others)
    ensures |GroupsOf(groups, order[..count])| <= |others|
  {
    hide HoldsNoDebt, HasRoomFor, Frees, Heavy, HeldBy, RoomOf;
    var needed := RoomOf(node, others);
    NoRoomForHeavy(node, others);
    FreesRoomOfIffCovers(node, others, others);
    WholeOrderHoldsAll(node, groups, order, others);
    FreesMonotone(needed, node, others, GroupsOf(groups, order[..|order|]));
    if |order| == 0 {
      assert GroupsOf(groups, order[..|order|]) == {};
      LightFreesNothing(node, {}, needed) by {
        NothingIsLight(node);
      }
    }
    SomePrefixIsShortest(needed, node, groups, order, |order|);
    var names :| IsShortestSufficient(needed, node, groups, order, names);
    count :| ShortestSufficient(needed, node, groups, order, count) && names == GroupsOf(groups, order[..count]);
    FreesRoomOfIffCovers(node, names, others);
    assert FewestInOrder(needed, node, groups, order);
  }

  lemma NothingIsLight(node: Node)
    ensures !Heavy(node, {})
  {
  }

  lemma WholeOrderHoldsAll(node: Node, groups: Edges<string>, order: seq<string>, names: set<string>)
    requires Nested(groups) && IsOrder(node, groups, order) && ClosedUnder(groups, names)
    ensures names * node.held.at.Keys <= GroupsOf(groups, order[..|order|])
  {
    assert order[..|order|] == order;
    forall x | x in names * node.held.at.Keys ensures x in GroupsOf(groups, order) {
      assert x in Here(node, groups) && x in ToSet(order);
      assert x in Targets(groups, x);
    }
  }

  ghost function GroupsAt(groups: Edges<string>, names: seq<string>): set<set<string>> {
    set x | x in names && x in groups :: groups[x]
  }

  /** Models whose groups are the given ones, one of each. */
  lemma {:induction false} Representatives(node: Node, groups: Edges<string>, some: set<set<string>>)
    returns (names: seq<string>)
    requires some <= HeavyGroups(node, groups)
    ensures |names| == |some| && Distinct(names) && ToSet(names) <= Here(node, groups)
    ensures GroupsAt(groups, names) == some
    ensures forall count: nat :: count <= |names| ==> |GroupsAt(groups, names[..count])| == count
    decreases |some|
  {
    if g :| g in some {
      var rest := Representatives(node, groups, some - {g});
      var x :| x in Here(node, groups) && groups[x] == g;
      names := rest + [x];
      OneMoreRepresentative(node, groups, rest, x);
      assert some - {g} + {g} == some;
    } else {
      names := [];
      assert some == {};
    }
  }

  lemma OneMoreRepresentative(node: Node, groups: Edges<string>, rest: seq<string>, x: string)
    requires Distinct(rest) && ToSet(rest) <= Here(node, groups)
    requires forall count: nat :: count <= |rest| ==> |GroupsAt(groups, rest[..count])| == count
    requires x in Here(node, groups) && groups[x] !in GroupsAt(groups, rest)
    ensures var names := rest + [x];
      && Distinct(names) && ToSet(names) <= Here(node, groups)
      && GroupsAt(groups, names) == GroupsAt(groups, rest) + {groups[x]}
      && forall count: nat :: count <= |names| ==> |GroupsAt(groups, names[..count])| == count
  {
    hide GroupsAt;
    var names := rest + [x];
    GroupsAtMore(groups, rest, x);
    DistinctConcat(rest, [x]);
    assert ToSet(names) == ToSet(rest) + {x};
    assert rest[..|rest|] == rest && names[..|names|] == names;
    forall count: nat | count <= |names| ensures |GroupsAt(groups, names[..count])| == count {
      if count <= |rest| {
        assert names[..count] == rest[..count];
      }
    }
  }

  lemma GroupsAtMore(groups: Edges<string>, rest: seq<string>, x: string)
    requires x in groups
    ensures GroupsAt(groups, rest + [x]) == GroupsAt(groups, rest) + {groups[x]}
    ensures groups[x] !in GroupsAt(groups, rest) ==> x !in rest
  {
    assert x in rest + [x];
  }

  lemma GroupsOfAt(groups: Edges<string>, names: seq<string>)
    requires forall x :: x in names ==> x in groups
    ensures GroupsOf(groups, names) == Union(GroupsAt(groups, names))
  {
    forall y | y in GroupsOf(groups, names) ensures y in Union(GroupsAt(groups, names)) {
      var x :| x in names && y in Targets(groups, x);
      assert groups[x] in GroupsAt(groups, names);
    }
    forall y | y in Union(GroupsAt(groups, names)) ensures y in GroupsOf(groups, names) {
      var g :| g in GroupsAt(groups, names) && y in g;
      var x :| x in names && x in groups && groups[x] == g;
      assert y in Targets(groups, x);
    }
  }

  lemma UnionIsClosed(node: Node, groups: Edges<string>, some: set<set<string>>)
    requires Nested(groups) && some <= HeavyGroups(node, groups)
    ensures ClosedUnder(groups, Union(some))
  {
    forall y | y in Union(some) ensures y in groups && groups[y] <= Union(some) {
      var g :| g in some && y in g;
      var x :| x in Here(node, groups) && g == groups[x];
      assert ClosedUnder(groups, groups[x]);
    }
  }

  lemma UnionIsHeavy(node: Node, groups: Edges<string>, some: set<set<string>>)
    requires HoldsNoDebt(node) && some <= HeavyGroups(node, groups) && some != {}
    ensures Heavy(node, Union(some))
  {
    var g :| g in some;
    var name :| HeldBy(node, g, name) > 0.0;
    assert g <= Union(some);
    HeldGrows(node, g, Union(some));
    assert HeldBy(node, Union(some), name) > 0.0;
  }

  /** Where heavy groups are of one size, a further one frees something more. */
  lemma FurtherGroupHoldsMore(node: Node, groups: Edges<string>, some: set<set<string>>, g: set<string>)
    requires HoldsNoDebt(node) && Nested(groups)
    requires some <= HeavyGroups(node, groups) && g in HeavyGroups(node, groups) && g !in some
    requires forall h, i :: h in HeavyGroups(node, groups) && i in HeavyGroups(node, groups) ==> |h| == |i|
    ensures !Covers(node, Union(some), Union(some + {g}))
  {
    hide HoldsNoDebt;
    var y, name := HolderIn(node, g);
    var x :| x in Here(node, groups) && g == groups[x];
    assert ClosedUnder(groups, groups[x]) && y in groups && groups[y] <= g;
    HolderIsHeavy(node, groups, y, name);
    SubsetSmaller(groups[y], g);
    forall h | h in some ensures y !in h {
      if y in h {
        var z :| z in Here(node, groups) && h == groups[z];
        assert ClosedUnder(groups, groups[z]) && groups[y] <= h;
        SubsetSmaller(groups[y], h);
      }
    }
    assert y !in Union(some);
    SumAdd(Union(some), y, (model: string) => Held(node, model, name));
    assert Union(some) + {y} <= Union(some + {g});
    HeldGrows(node, Union(some) + {y}, Union(some + {g}));
    HolderPositive(node, y, name);
    assert HeldBy(node, Union(some + {g}), name) > HeldBy(node, Union(some), name);
  }

  lemma HolderPositive(node: Node, y: string, name: string)
    requires HoldsNoDebt(node) && Held(node, y, name) != 0.0
    ensures Held(node, y, name) > 0.0
  {
  }

  lemma HolderIn(node: Node, names: set<string>) returns (y: string, name: string)
    requires Heavy(node, names)
    ensures y in names && Held(node, y, name) != 0.0
  {
    name :| HeldBy(node, names, name) > 0.0;
    if forall x :: x in names ==> Held(node, x, name) == 0.0 {
      SumEqual(names, (model: string) => Held(node, model, name), 0.0);
    }
    y :| y in names && Held(node, y, name) != 0.0;
  }

  /** Half of the next lemma: the second groups first in the order, the room of
      the first groups needed. */
  lemma {:induction false} HalfAlike(node: Node, groups: Edges<string>, s: set<set<string>>, t: set<set<string>>)
    requires HoldsNoDebt(node) && Nested(groups) && AlwaysFewest(node, groups)
    requires EquallyMany(node, groups, s, t) && s != {}
    ensures |Union(t)| <= |Union(s)|
    ensures |Union(t)| == |Union(s)| ==> Covers(node, Union(t), Union(s))
    decreases |s|, 1
  {
    hide HoldsNoDebt, Nested, AlwaysFewest, Covers, HeavyGroups, ClosedUnder, Heavy, IsOrder;
    UnionIsClosed(node, groups, s);
    UnionIsHeavy(node, groups, s);
    var first := Representatives(node, groups, t);
    var order := OrderFrom(node, groups, first);
    var count := AnswerInOrder(node, groups, order, Union(s));
    if count < |t| {
      assert order[..count] == first[..count];
      var before := GroupsAt(groups, first[..count]);
      assert before <= t by {
        assert forall x :: x in first[..count] ==> x in first;
      }
      GroupsOfHere(node, groups, first, count);
      var some := SubsetOfSize(s, count);
      AlikeOfSize(node, groups, some, before);
      CoversTransitive(node, Union(some), Union(before), Union(s));
      var g := OneMoreOf(s, some);
      OneSize(node, groups, |s|);
      FurtherGroupHoldsMore(node, groups, some, g);
      assert some + {g} <= s;
      assert Union(some + {g}) <= Union(s);
      HeldGrows(node, Union(some + {g}), Union(s));
      CoversTransitive(node, Union(some), Union(s), Union(some + {g}));
    }
    assert order[..|t|] == first[..|t|] == first;
    GroupsOfHere(node, groups, first, |t|);
    assert forall x :: x in order[..|t|] ==> x in order[..count];
    assert Union(t) <= GroupsOf(groups, order[..count]);
    SubsetSmaller(Union(t), GroupsOf(groups, order[..count]));
  }

  lemma OneMoreOf<T>(s: set<T>, some: set<T>) returns (x: T)
    requires some <= s && |some| < |s|
    ensures x in s && x !in some
  {
    assert !(s <= some) by {
      if s <= some {
        SubsetSmaller(s, some);
      }
    }
    x :| x in s && x !in some;
  }

  lemma GroupsOfHere(node: Node, groups: Edges<string>, names: seq<string>, count: nat)
    requires ToSet(names) <= Here(node, groups) && count <= |names|
    ensures GroupsOf(groups, names[..count]) == Union(GroupsAt(groups, names[..count]))
  {
    forall x | x in names[..count] ensures x in groups {
      assert x in ToSet(names);
    }
    GroupsOfAt(groups, names[..count]);
  }

  /** From two groups on, the single ones are known to be of one size. */
  lemma {:induction false} OneSize(node: Node, groups: Edges<string>, bound: nat)
    requires HoldsNoDebt(node) && Nested(groups) && AlwaysFewest(node, groups) && bound >= 2
    ensures forall g, h :: g in HeavyGroups(node, groups) && h in HeavyGroups(node, groups) ==> |g| == |h|
    decreases bound, 0
  {
    hide HoldsNoDebt, Nested, AlwaysFewest;
    forall g, h | g in HeavyGroups(node, groups) && h in HeavyGroups(node, groups) ensures |g| == |h| {
      AlikeOfSize(node, groups, {g}, {h});
      assert Union({g}) == g && Union({h}) == h;
    }
  }

  lemma {:induction false} AlikeOfSize(node: Node, groups: Edges<string>, s: set<set<string>>, t: set<set<string>>)
    requires HoldsNoDebt(node) && Nested(groups) && AlwaysFewest(node, groups) && EquallyMany(node, groups, s, t)
    ensures Alike(node, Union(s), Union(t))
    decreases |s|, 2
  {
    hide HoldsNoDebt, Nested, AlwaysFewest;
    if s == {} {
      assert t == {} && Union(s) == Union(t);
    } else {
      HalfAlike(node, groups, s, t);
      HalfAlike(node, groups, t, s);
    }
  }

  lemma GroupsOfOne(groups: Edges<string>, x: string)
    requires x in groups
    ensures GroupsOf(groups, [x]) == groups[x]
  {
    forall y | y in groups[x] ensures y in GroupsOf(groups, [x]) {
      assert x in [x] && y in Targets(groups, x);
    }
  }

  lemma LightCoversNoHeavy(node: Node, light: set<string>, heavy: set<string>)
    requires !Heavy(node, light) && Heavy(node, heavy)
    ensures !Covers(node, light, heavy)
  {
    var name :| HeldBy(node, heavy, name) > 0.0;
    assert HeldBy(node, light, name) <= 0.0;
  }

  /** A group that frees nothing, used least recently, goes with each heavy
      group needed. */
  lemma LightWithinHeavy(node: Node, groups: Edges<string>, x: string, g: set<string>)
    requires HoldsNoDebt(node) && Nested(groups) && AlwaysFewest(node, groups)
    requires x in Here(node, groups) && !Heavy(node, groups[x]) && g in HeavyGroups(node, groups)
    ensures groups[x] <= g
  {
    hide HoldsNoDebt, AlwaysFewest;
    var y :| y in Here(node, groups) && g == groups[y];
    assert ToSet([x, y]) == {x, y};
    var order := OrderFrom(node, groups, [x, y]);
    var count := AnswerInOrder(node, groups, order, g);
    var paused := GroupsOf(groups, order[..count]);
    assert order[0] == x && order[1] == y;
    assert x in order[..count];
    PrefixPauses(groups, order, count, x);
    assert order[..1] == [x];
    GroupsOfOne(groups, x);
    LightCoversNoHeavy(node, groups[x], g);
    assert count >= 2;
    assert y in order[..count];
    PrefixPauses(groups, order, count, y);
    SubsetSmaller(g, paused);
  }

  /** On a node the shortest sufficient prefix is the fewest models, whatever is
      needed and in whatever order its models were used, exactly when its
      groups are interchangeable. */
  lemma AlwaysFewestIff(node: Node, groups: Edges<string>)
    requires HoldsNoDebt(node) && Nested(groups)
    ensures AlwaysFewest(node, groups) <==> Interchangeable(node, groups)
  {
    hide HoldsNoDebt, Nested, Alike, HasRoomFor, Frees;
    if Interchangeable(node, groups) {
      forall order, needed | IsOrder(node, groups, order) && !HasRoomFor(needed, node.free)
        ensures FewestInOrder(needed, node, groups, order)
      {
        forall count: nat, names |
            ShortestSufficient(needed, node, groups, order, count) && ClosedUnder(groups, names)
            && Frees(needed, node, names)
          ensures count <= |order| && |GroupsOf(groups, order[..count])| <= |names|
        {
          FewestIfInterchangeable(needed, node, groups, order, count, names);
        }
      }
    }
    if AlwaysFewest(node, groups) {
      forall s, t | EquallyMany(node, groups, s, t) ensures Alike(node, Union(s), Union(t)) {
        AlikeOfSize(node, groups, s, t);
      }
      forall x, g | x in Here(node, groups) && !Heavy(node, groups[x]) && g in HeavyGroups(node, groups)
        ensures groups[x] <= g
      {
        LightWithinHeavy(node, groups, x, g);
      }
    }
  }

  /******* In terms of what the scheduler is told *******/

  /** The same reports but for the times of the last requests. */
  ghost predicate SameButUse(models: Models, others: Models) {
    && others.Keys == models.Keys
    && forall name :: name in models ==> others[name] == models[name].(lastRequestAt := others[name].lastRequestAt)
  }

  /** On this node, whatever the need that it has no room for and whenever each
      model was last used, the search finds as few models as any set that may
      be paused and makes room. */
  ghost predicate NodeAlwaysFewest(
    models: Models, required: Edges<string>, running: set<string>, className: string, node: Node, groups: Edges<string>)
  {
    forall others, needed, names |
        SameButUse(models, others) && !HasRoomFor(needed, node.free) && Frees(needed, node, names)
        && MayPause(models, required, running, className, names) ::
      FindsAtMost(others, needed, node, groups, |names|)
  }

  ghost predicate FindsAtMost(models: Models, needed: Resources, node: Node, groups: Edges<string>, size: nat) {
    var candidate := Candidate(models, needed, node, groups);
    candidate.Some? && |candidate.value| <= size
  }

  lemma GroupsAreNested(
    models: Models, required: Edges<string>, running: set<string>, className: string, groups: Edges<string>)
    requires AreGroups(models, required, running, className, groups)
    ensures Nested(groups)
  {
    forall x, m | x in groups && m in groups[x] ensures m in groups && groups[m] <= groups[x] {
      GroupsNest(required, running, x, m);
    }
  }

  lemma MayPauseIffClosed(
    models: Models, required: Edges<string>, running: set<string>, className: string, groups: Edges<string>,
    names: set<string>)
    requires AreGroups(models, required, running, className, groups)
    ensures MayPause(models, required, running, className, names) <==> ClosedUnder(groups, names)
  {
    if MayPause(models, required, running, className, names) {
      forall x | x in names ensures x in groups && groups[x] <= names {
        WithinMayPause(models, required, running, className, names, x);
      }
    }
    if ClosedUnder(groups, names) {
      forall x | x in names
        ensures x in running && Idle(models, {x}) && Spares(required, className, {x})
        ensures Group(required, running, x) <= names
      {
        assert x in Group(required, running, x);
      }
    }
  }

  ghost function PlaceIn(order: seq<string>, name: string): nat {
    if name in order then
      var i :| 0 <= i < |order| && order[i] == name;
      i
    else 0
  }

  /** Every order is that of some use. */
  lemma OrderIsOfSomeUse(models: Models, node: Node, groups: Edges<string>, order: seq<string>) returns (others: Models)
    requires node.held.Valid() && IsOrder(node, groups, order) && groups.Keys <= models.Keys
    ensures SameButUse(models, others) && LeastRecentlyUsedFirst(others, node, groups) == order
  {
    hide LastUsed, Ascending;
    others := map name | name in models :: models[name].(lastRequestAt := PlaceIn(order, name) as real);
    var found := LeastRecentlyUsedFirst(others, node, groups);
    LeastRecentlyUsedMembers(others, node, groups);
    LastUsedPreorder(others);
    SortByAscending(Filter(node.held.keys, (name: string) => name in groups), LastUsed(others));
    assert forall x :: x in order <==> x in ToSet(order);
    assert forall x :: x in found <==> x in ToSet(found);
    assert ToSet(found) == ToSet(order);
    PlacesAreTimes(others, order);
    AscendingWithoutTies(order, found, LastUsed(others));
  }

  lemma PlacesAreTimes(others: Models, order: seq<string>)
    requires Distinct(order) && forall x :: x in order ==> x in others
    requires forall x :: x in others ==> others[x].lastRequestAt == PlaceIn(order, x) as real
    ensures Ascending(order, LastUsed(others))
    ensures forall a, b :: a in order && b in order && LastUsed(others)(a, b) && LastUsed(others)(b, a) ==> a == b
  {
    forall i | 0 <= i < |order| ensures PlaceIn(order, order[i]) == i {
    }
    forall i, j | 0 <= i < j < |order| ensures LastUsed(others)(order[i], order[j]) {
      assert order[i] in others && order[j] in others;
    }
  }

  lemma GroupsAreOfModels(
    models: Models, required: Edges<string>, running: set<string>, className: string, groups: Edges<string>)
    requires AreGroups(models, required, running, className, groups)
    ensures groups.Keys <= models.Keys
  {
    forall x | x in groups ensures x in models {
      assert x in Group(required, running, x);
    }
  }

  lemma UseIsSomeOrder(others: Models, node: Node, groups: Edges<string>)
    requires node.held.Valid()
    ensures IsOrder(node, groups, LeastRecentlyUsedFirst(others, node, groups))
  {
    LeastRecentlyUsedMembers(others, node, groups);
  }

  /** The search finds something on a node where something would make room. */
  lemma FoundWherePossible(
    others: Models, needed: Resources, node: Node, groups: Edges<string>, names: set<string>) returns (count: nat)
    requires node.held.Valid() && HoldsNoDebt(node) && Nested(groups)
    requires ClosedUnder(groups, names) && Frees(needed, node, names) && !HasRoomFor(needed, node.free)
    ensures var order := LeastRecentlyUsedFirst(others, node, groups);
      ShortestSufficient(needed, node, groups, order, count) &&
      Candidate(others, needed, node, groups) == Some(GroupsOf(groups, order[..count]))
  {
    hide HoldsNoDebt, Nested, HasRoomFor, Frees, ClosedUnder, LeastRecentlyUsedFirst;
    var order := LeastRecentlyUsedFirst(others, node, groups);
    UseIsSomeOrder(others, node, groups);
    WholeOrderHoldsAll(node, groups, order, names);
    FreesMonotone(needed, node, names, GroupsOf(groups, order[..|order|]));
    if |order| == 0 {
      assert GroupsOf(groups, order[..|order|]) == {};
      NothingIsLight(node);
      LightFreesNothing(node, {}, needed);
    }
    SomePrefixIsShortest(needed, node, groups, order, |order|);
    var found :| IsShortestSufficient(needed, node, groups, order, found);
    count :| ShortestSufficient(needed, node, groups, order, count) && found == GroupsOf(groups, order[..count]);
    ShortestIsUnique(needed, node, groups, order, found, Candidate(others, needed, node, groups).value);
  }

  /** The exact condition, in the scheduler's terms. */
  lemma NodeAlwaysFewestIff(
    models: Models, required: Edges<string>, running: set<string>, className: string, node: Node, groups: Edges<string>)
    requires AreGroups(models, required, running, className, groups)
    requires node.held.Valid() && HoldsNoDebt(node)
    ensures NodeAlwaysFewest(models, required, running, className, node, groups) <==> Interchangeable(node, groups)
  {
    hide AreGroups, HoldsNoDebt, Interchangeable, MayPause, HasRoomFor, Frees, Nested, Candidate;
    GroupsAreNested(models, required, running, className, groups);
    AlwaysFewestIff(node, groups);
    if AlwaysFewest(node, groups) {
      forall others, needed, names |
          SameButUse(models, others) && !HasRoomFor(needed, node.free) && Frees(needed, node, names)
          && MayPause(models, required, running, className, names)
        ensures FindsAtMost(others, needed, node, groups, |names|)
      {
        MayPauseIffClosed(models, required, running, className, groups, names);
        var count := FoundWherePossible(others, needed, node, groups, names);
        UseIsSomeOrder(others, node, groups);
        assert FewestInOrder(needed, node, groups, LeastRecentlyUsedFirst(others, node, groups));
      }
    }
    if NodeAlwaysFewest(models, required, running, className, node, groups) {
      forall order, needed | IsOrder(node, groups, order) && !HasRoomFor(needed, node.free)
        ensures FewestInOrder(needed, node, groups, order)
      {
        GroupsAreOfModels(models, required, running, className, groups);
        var others := OrderIsOfSomeUse(models, node, groups, order);
        FewestInThatOrder(models, required, running, className, node, groups, others, needed);
      }
    }
  }

  lemma FewestInThatOrder(
    models: Models, required: Edges<string>, running: set<string>, className: string, node: Node, groups: Edges<string>,
    others: Models, needed: Resources)
    requires AreGroups(models, required, running, className, groups)
    requires node.held.Valid() && HoldsNoDebt(node) && Nested(groups) && SameButUse(models, others)
    requires NodeAlwaysFewest(models, required, running, className, node, groups) && !HasRoomFor(needed, node.free)
    ensures FewestInOrder(needed, node, groups, LeastRecentlyUsedFirst(others, node, groups))
  {
    hide AreGroups, HoldsNoDebt, MayPause, HasRoomFor, Frees, Nested, Candidate, LeastRecentlyUsedFirst, GroupsOf;
    var order := LeastRecentlyUsedFirst(others, node, groups);
    forall count: nat, names |
        ShortestSufficient(needed, node, groups, order, count) && ClosedUnder(groups, names)
        && Frees(needed, node, names)
      ensures count <= |order| && |GroupsOf(groups, order[..count])| <= |names|
    {
      MayPauseIffClosed(models, required, running, className, groups, names);
      var found := FoundWherePossible(others, needed, node, groups, names);
      assert IsShortestSufficient(needed, node, groups, order, GroupsOf(groups, order[..count]));
      assert IsShortestSufficient(needed, node, groups, order, GroupsOf(groups, order[..found]));
      ShortestIsUnique(needed, node, groups, order, GroupsOf(groups, order[..count]), GroupsOf(groups, order[..found]));
      assert FindsAtMost(others, needed, node, groups, |names|);
    }
  }

  lemma GroupsUnique(
    models: Models, required: Edges<string>, running: set<string>, className: string, a: Edges<string>,
    b: Edges<string>)
    requires AreGroups(models, required, running, className, a) && AreGroups(models, required, running, className, b)
    ensures a == b
  {
  }

  /** The whole choice: with interchangeable groups on every node, no set that
      may be paused and makes room, on any node, has fewer models. */
  lemma ChoiceIsFewest(
    models: Models, required: Edges<string>, nodes: seq<Node>, running: set<string>, replica: WaitingReplica,
    chosen: set<string>, groups: Edges<string>, i: nat, names: set<string>)
    requires IsChoice(models, required, nodes, running, replica, chosen)
    requires AreGroups(models, required, running, replica.className, groups)
    requires forall n :: 0 <= n < |nodes| ==>
      nodes[n].held.Valid() && HoldsNoDebt(nodes[n]) && Interchangeable(nodes[n], groups)
    requires !SomeNodeHasRoom(replica.required, nodes) && i < |nodes|
    requires MayPause(models, required, running, replica.className, names) && Frees(replica.required, nodes[i], names)
    ensures chosen != {} && |chosen| <= |names|
  {
    hide AreGroups, HoldsNoDebt, Interchangeable, MayPause, HasRoomFor, Frees, Candidate;
    ChoosesIffPossible(models, required, nodes, running, replica, chosen);
    var others :| AreGroups(models, required, running, replica.className, others) &&
      IsFewest(models, replica.required, nodes, others, chosen);
    GroupsUnique(models, required, running, replica.className, groups, others);
    NodeAlwaysFewestIff(models, required, running, replica.className, nodes[i], groups);
    assert !HasRoomFor(replica.required, nodes[i].free);
    assert SameButUse(models, models);
    assert FindsAtMost(models, replica.required, nodes[i], groups, |names|);
    var candidates, best :|
      AreCandidates(models, replica.required, nodes, groups, candidates) && IsFewestOf(candidates, best) &&
      chosen == if best.Some? then best.value else {};
    assert candidates[i] == Candidate(models, replica.required, nodes[i], groups);
  }

  /******* The plain case *******/

  /** No running model requires a pausable one of the node. */
  ghost predicate Alone(node: Node, groups: Edges<string>) {
    forall x :: x in Here(node, groups) ==> groups[x] == {x}
  }

  ghost predicate HoldTheSame(node: Node, groups: Edges<string>) {
    forall x, y, name :: x in Here(node, groups) && y in Here(node, groups) ==>
      Held(node, x, name) == Held(node, y, name)
  }

  ghost predicate AloneAndAlike(node: Node, groups: Edges<string>) {
    Alone(node, groups) && HoldTheSame(node, groups)
  }

  /** Models that nothing running requires are interchangeable exactly when
      all hold the same. */
  lemma AloneInterchangeableIff(node: Node, groups: Edges<string>)
    requires HoldsNoDebt(node) && Alone(node, groups)
    ensures Interchangeable(node, groups) <==> HoldTheSame(node, groups)
  {
    if HoldTheSame(node, groups) {
      AloneAndAlikeInterchangeable(node, groups);
    }
    if Interchangeable(node, groups) {
      forall x, y, name | x in Here(node, groups) && y in Here(node, groups)
        ensures Held(node, x, name) == Held(node, y, name)
      {
        HoldTheSameIfInterchangeable(node, groups, x, y, name);
      }
    }
  }

  lemma HoldTheSameIfInterchangeable(node: Node, groups: Edges<string>, x: string, y: string, name: string)
    requires HoldsNoDebt(node) && Alone(node, groups) && Interchangeable(node, groups)
    requires x in Here(node, groups) && y in Here(node, groups)
    ensures Held(node, x, name) == Held(node, y, name)
  {
    HeldByOne(node, x, name);
    HeldByOne(node, y, name);
    if Heavy(node, groups[x]) && Heavy(node, groups[y]) {
      assert EquallyMany(node, groups, {groups[x]}, {groups[y]});
      assert Union({groups[x]}) == {x} && Union({groups[y]}) == {y};
    } else {
      NeitherHeavy(node, groups, x, y);
      assert HeldBy(node, {x}, name) <= 0.0 && HeldBy(node, {y}, name) <= 0.0;
    }
  }

  lemma NeitherHeavy(node: Node, groups: Edges<string>, x: string, y: string)
    requires Alone(node, groups) && Interchangeable(node, groups)
    requires x in Here(node, groups) && y in Here(node, groups)
    requires !Heavy(node, groups[x]) || !Heavy(node, groups[y])
    ensures !Heavy(node, groups[x]) && !Heavy(node, groups[y])
  {
    if Heavy(node, groups[x]) {
      HeavyTogether(node, groups, x, y);
    }
    if Heavy(node, groups[y]) {
      HeavyTogether(node, groups, y, x);
    }
  }

  lemma HeavyTogether(node: Node, groups: Edges<string>, x: string, y: string)
    requires Alone(node, groups) && Interchangeable(node, groups)
    requires x in Here(node, groups) && y in Here(node, groups) && Heavy(node, groups[x])
    ensures Heavy(node, groups[y])
  {
    assert groups[x] in HeavyGroups(node, groups);
    assert y in groups[y];
  }

  lemma AloneAndAlikeInterchangeable(node: Node, groups: Edges<string>)
    requires AloneAndAlike(node, groups)
    ensures Interchangeable(node, groups)
  {
    hide AloneAndAlike, HeavyGroups, Heavy, Alike;
    forall s, t | EquallyMany(node, groups, s, t) ensures Alike(node, Union(s), Union(t)) {
      UnionOfSingles(node, groups, s);
      UnionOfSingles(node, groups, t);
      AlikeSets(node, groups, Union(s), Union(t));
    }
    forall x, g | x in Here(node, groups) && g in HeavyGroups(node, groups) ensures Heavy(node, groups[x]) {
      NoneLight(node, groups, x, g);
    }
  }

  lemma AlikeSets(node: Node, groups: Edges<string>, names: set<string>, others: set<string>)
    requires AloneAndAlike(node, groups)
    requires names <= Here(node, groups) && others <= Here(node, groups) && |names| == |others|
    ensures Alike(node, names, others)
  {
    hide Here;
    forall name ensures HeldBy(node, names, name) == HeldBy(node, others, name) {
      if x :| x in names {
        SumEqual(names, (m: string) => Held(node, m, name), Held(node, x, name));
        SumEqual(others, (m: string) => Held(node, m, name), Held(node, x, name));
      } else {
        assert names == {} && others == {};
      }
    }
  }

  lemma NoneLight(node: Node, groups: Edges<string>, x: string, g: set<string>)
    requires AloneAndAlike(node, groups) && x in Here(node, groups) && g in HeavyGroups(node, groups)
    ensures Heavy(node, groups[x])
  {
    var y :| y in Here(node, groups) && g == groups[y];
    var name :| HeldBy(node, g, name) > 0.0;
    HeldByOne(node, x, name);
    HeldByOne(node, y, name);
    assert HeldBy(node, groups[x], name) > 0.0;
  }

  lemma {:induction false} UnionOfSingles(node: Node, groups: Edges<string>, some: set<set<string>>)
    requires AloneAndAlike(node, groups) && some <= HeavyGroups(node, groups)
    ensures |Union(some)| == |some| && Union(some) <= Here(node, groups)
    decreases |some|
  {
    if g :| g in some {
      UnionOfSingles(node, groups, some - {g});
      var x :| x in Here(node, groups) && g == groups[x];
      assert Union(some) == Union(some - {g}) + {x};
      forall h | h in some - {g} ensures x !in h {
        var y :| y in Here(node, groups) && h == groups[y];
      }
      assert x !in Union(some - {g});
    } else {
      assert Union(some) == {};
    }
  }

  /** For one need and one order the condition is not necessary: used the other
      way round, the two models of `PauseDecision.SmallerSetMaySuffice` give the
      fewest. */
  lemma LuckyOrder()
    ensures
      var node := Node(map[], Dict(["a", "b"], map["a" := map["GPU" := 1.0], "b" := map["GPU" := 2.0]]));
      var groups: Edges<string> := map["a" := {"a"}, "b" := {"b"}];
      var needed := map["GPU" := 2.0];
      && !Interchangeable(node, groups) && !HasRoomFor(needed, node.free)
      && IsOrder(node, groups, ["b", "a"]) && FewestInOrder(needed, node, groups, ["b", "a"])
  {
    var node := Node(map[], Dict(["a", "b"], map["a" := map["GPU" := 1.0], "b" := map["GPU" := 2.0]]));
    var groups: Edges<string> := map["a" := {"a"}, "b" := {"b"}];
    var needed, order := map["GPU" := 2.0], ["b", "a"];
    assert "a" in Here(node, groups) && "b" in Here(node, groups) && Held(node, "a", "GPU") != Held(node, "b", "GPU");
    AloneInterchangeableIff(node, groups);
    NoRoomYet(node, needed);
    OneSuffices(node, groups, needed, order);
  }

  lemma OneSuffices(node: Node, groups: Edges<string>, needed: Resources, order: seq<string>)
    requires order == ["b", "a"] && groups == map["a" := {"a"}, "b" := {"b"}]
    requires node.held.at == map["a" := map["GPU" := 1.0], "b" := map["GPU" := 2.0]] && node.free == map[]
    requires needed == map["GPU" := 2.0]
    ensures FewestInOrder(needed, node, groups, order)
  {
    HeldOfTwo(node);
    GroupsOfOne(groups, "b");
    assert order[..1] == ["b"] && Frees(needed, node, GroupsOf(groups, order[..1]));
    NothingHeld(node);
    assert "GPU" in needed && !Frees(needed, node, {});
    forall count: nat, names |
        ShortestSufficient(needed, node, groups, order, count) && ClosedUnder(groups, names)
        && Frees(needed, node, names)
      ensures count <= |order| && |GroupsOf(groups, order[..count])| <= |names|
    {
      assert count == 1 && names != {};
      assert |{"b"}| == 1;
    }
  }
}
