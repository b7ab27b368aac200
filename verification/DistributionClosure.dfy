/** cortexgrid/_bundle.py, `distribution_closure`: the distributions some
    requirements name, and all that these depend on. */
module DistributionClosure {
  import opened Common
  import opened Graph

  /** An environment marker, evaluated with the extra in force. */
  type Marker = string -> bool

  /** A requirement, its name already canonical. */
  datatype Requirement = Requirement(name: string, extras: set<string>, marker: Option<Marker>)
  {
    function Key(): Key {
      (name, extras)
    }
  }

  type Key = (string, set<string>)

  /** The installed distributions, each with what its metadata requires. */
  type Installed = map<string, seq<Requirement>>

  function ExtrasInForce(extras: set<string>): set<string> {
    if extras == {} then {""} else extras
  }

  predicate Applies(requirement: Requirement, extras: set<string>) {
    requirement.marker.None? ||
    exists extra :: extra in ExtrasInForce(extras) && requirement.marker.value(extra)
  }

  ghost function DependencyKeys(installed: Installed, key: Key): set<Key> {
    if key.0 !in installed then {}
    else set i | 0 <= i < |installed[key.0]| && Applies(installed[key.0][i], key.1) :: installed[key.0][i].Key()
  }

  /** Every key that is asked for or mentioned in some metadata. */
  ghost function AllKeys(installed: Installed, seeds: set<Key>): set<Key> {
    seeds + set name, i | name in installed && 0 <= i < |installed[name]| :: installed[name][i].Key()
  }

  ghost function KeyEdges(installed: Installed, seeds: set<Key>): Edges<Key> {
    map key | key in AllKeys(installed, seeds) :: DependencyKeys(installed, key)
  }

  ghost function KeysOf(requirements: seq<Requirement>): set<Key> {
    set i | 0 <= i < |requirements| :: requirements[i].Key()
  }

  ghost function Keys(requirements: seq<Requirement>): (keys: seq<Key>)
    ensures |keys| == |requirements|
    ensures ToSet(keys) == KeysOf(requirements)
    ensures requirements == [] ==> keys == []
    ensures |requirements| == 1 ==> keys == [requirements[0].Key()]
  {
    var keys := seq(|requirements|, i requires 0 <= i < |requirements| => requirements[i].Key());
    assert forall key :: key in ToSet(keys) <==> key in KeysOf(requirements) by {
      forall key | key in KeysOf(requirements) ensures key in keys {
        var i :| 0 <= i < |requirements| && requirements[i].Key() == key;
        assert keys[i] == key;
      }
    }
    keys
  }

  /** The applicable dependencies of one distribution, with these extras. */
  method Dependencies(installed: Installed, key: Key) returns (more: seq<Requirement>)
    ensures KeysOf(more) == DependencyKeys(installed, key)
  {
    more := [];
    if key.0 !in installed {
      return;
    }
    var listed := installed[key.0];
    var i := 0;
    while i < |listed|
      invariant 0 <= i <= |listed|
      invariant KeysOf(more) == set n | 0 <= n < i && Applies(listed[n], key.1) :: listed[n].Key()
    {
      if Applies(listed[i], key.1) {
        KeysOfMore(more, listed[i]);
        more := more + [listed[i]];
      }
      i := i + 1;
    }
  }

  lemma KeysOfMore(requirements: seq<Requirement>, last: Requirement)
    ensures KeysOf(requirements + [last]) == KeysOf(requirements) + {last.Key()}
  {
    KeysOfConcat(requirements, [last]);
    assert [last][0] == last;
  }

  lemma KeysOfConcat(first: seq<Requirement>, second: seq<Requirement>)
    ensures KeysOf(first + second) == KeysOf(first) + KeysOf(second)
  {
    forall key | key in KeysOf(first) + KeysOf(second) ensures key in KeysOf(first + second) {
      if key in KeysOf(first) {
        var i :| 0 <= i < |first| && first[i].Key() == key;
        assert (first + second)[i].Key() == key;
      } else {
        var i :| 0 <= i < |second| && second[i].Key() == key;
        assert (first + second)[|first| + i].Key() == key;
      }
    }
  }

  lemma KeysConcat(first: seq<Requirement>, second: seq<Requirement>)
    ensures Keys(first + second) == Keys(first) + Keys(second)
  {
  }

  /** Exactly the names of the keys the requirements reach, whatever the order
      of the worklist; a distribution not installed gives its own name only. */
  method ClosureOf(installed: Installed, requirements: seq<Requirement>) returns (names: set<string>)
    ensures var seeds := KeysOf(requirements);
      forall name :: name in names <==>
        exists extras :: ReachedFrom(KeyEdges(installed, seeds), seeds, (name, extras))
    ensures exists keys ::
      IsLeast(installed, requirements, keys) &&
      forall name :: name in names <==> exists extras :: (name, extras) in keys
  {
    hide *;
    ghost var seeds := KeysOf(requirements);
    ghost var edges := KeyEdges(installed, seeds);
    ghost var all := AllKeys(installed, seeds);
    names := {};
    var seen: set<Key> := {};
    var queue := requirements;
    VisitingStarts(edges, Keys(queue));
    SeedsAreKeys(installed, requirements);
    while queue != []
      invariant Visiting(edges, seeds, seen, Keys(queue))
      invariant seen <= all && KeysOf(queue) <= all
      invariant forall name :: name in names <==> exists extras :: (name, extras) in seen
      decreases |all - seen|, |queue|
    {
      var requirement, rest := queue[|queue| - 1], queue[..|queue| - 1];
      assert queue == rest + [requirement];
      var key := requirement.Key();
      KeysOfMore(rest, requirement);
      KeysConcat(rest, [requirement]);
      if key in seen {
        VisitingSkips(edges, seeds, seen, Keys(rest), key);
        queue := rest;
      } else {
        var more := Dependencies(installed, key);
        EdgesAreDependencies(installed, seeds, key);
        VisitingGoesOn(edges, seeds, seen, Keys(rest), key, Keys(more));
        KeysOfConcat(rest, more);
        KeysConcat(rest, more);
        ghost var unseen := all - seen;
        assert all - (seen + {key}) == unseen - {key};
        names := names + {key.0};
        seen := seen + {key};
        queue := rest + more;
      }
    }
    assert Keys(queue) == [];
    VisitingEnds(edges, seeds, seen);
    ReachedIsLeast(installed, requirements, seen);
  }

  /******* The closure, told by the metadata alone *******/

  /** The marker holds with one of the extras, or with none if there is none. */
  ghost predicate InForce(marker: Option<Marker>, extras: set<string>) {
    marker.None? || (extras == {} && marker.value("")) || exists extra :: extra in extras && marker.value(extra)
  }

  ghost predicate Mentions(requirements: seq<Requirement>, key: Key) {
    exists i :: 0 <= i < |requirements| && requirements[i].name == key.0 && requirements[i].extras == key.1
  }

  /** The metadata of an installed distribution asks, under these extras, for
      the next one. */
  ghost predicate Brings(installed: Installed, key: Key, next: Key) {
    key.0 in installed &&
    exists i :: 0 <= i < |installed[key.0]| &&
      var dependency := installed[key.0][i];
      dependency.name == next.0 && dependency.extras == next.1 && InForce(dependency.marker, key.1)
  }

  ghost predicate HoldsAll(installed: Installed, requirements: seq<Requirement>, keys: set<Key>) {
    && (forall key :: Mentions(requirements, key) ==> key in keys)
    && (forall key, next :: key in keys && Brings(installed, key, next) ==> next in keys)
  }

  /** The smallest set with the requirements and all they bring. */
  ghost predicate IsLeast(installed: Installed, requirements: seq<Requirement>, keys: set<Key>) {
    && HoldsAll(installed, requirements, keys)
    && forall other :: HoldsAll(installed, requirements, other) ==> keys <= other
  }

  lemma AppliesIffInForce(requirement: Requirement, extras: set<string>)
    ensures Applies(requirement, extras) <==> InForce(requirement.marker, extras)
  {
    if extras == {} {
      assert "" in ExtrasInForce(extras);
    }
  }

  lemma DependencyIffBrings(installed: Installed, key: Key, next: Key)
    ensures next in DependencyKeys(installed, key) <==> Brings(installed, key, next)
  {
    hide InForce, Applies;
    if key.0 in installed {
      forall i | 0 <= i < |installed[key.0]|
        ensures Applies(installed[key.0][i], key.1) <==> InForce(installed[key.0][i].marker, key.1)
      {
        AppliesIffInForce(installed[key.0][i], key.1);
      }
    }
  }

  lemma MentionedIffKey(requirements: seq<Requirement>, key: Key)
    ensures key in KeysOf(requirements) <==> Mentions(requirements, key)
  {
  }

  /** What the worklist has seen in the end is that set. */
  lemma ReachedIsLeast(installed: Installed, requirements: seq<Requirement>, seen: set<Key>)
    requires var seeds := KeysOf(requirements);
      seen <= AllKeys(installed, seeds) &&
      forall key :: key in seen <==> ReachedFrom(KeyEdges(installed, seeds), seeds, key)
    ensures IsLeast(installed, requirements, seen)
  {
    hide Brings, Mentions, KeysOf, AllKeys, KeyEdges, DependencyKeys, ReachedFrom;
    var seeds := KeysOf(requirements);
    var edges := KeyEdges(installed, seeds);
    forall key | Mentions(requirements, key) ensures key in seen {
      MentionedIffKey(requirements, key);
      SeedIsReached(edges, seeds, key);
    }
    forall key, next | key in seen && Brings(installed, key, next) ensures next in seen {
      DependencyIffBrings(installed, key, next);
      EdgesAreDependencies(installed, seeds, key);
      ReachedThenEdge(edges, seeds, key, next);
    }
    forall other | HoldsAll(installed, requirements, other) ensures seen <= other {
      forall key | key in seen ensures key in other {
        HeldIfReached(installed, requirements, other, key);
      }
    }
  }

  lemma SeedIsReached(edges: Edges<Key>, seeds: set<Key>, key: Key)
    requires key in seeds
    ensures ReachedFrom(edges, seeds, key)
  {
  }

  lemma HeldIfReached(installed: Installed, requirements: seq<Requirement>, other: set<Key>, key: Key)
    requires HoldsAll(installed, requirements, other)
    requires ReachedFrom(KeyEdges(installed, KeysOf(requirements)), KeysOf(requirements), key)
    ensures key in other
  {
    hide Brings, Mentions, KeysOf, AllKeys, DependencyKeys, ReachedFrom;
    var seeds := KeysOf(requirements);
    forall k | k in seeds ensures k in other {
      MentionedIffKey(requirements, k);
    }
    forall k | k in other ensures Targets(KeyEdges(installed, seeds), k) <= other {
      forall next | next in Targets(KeyEdges(installed, seeds), k) ensures next in other {
        DependencyIffBrings(installed, k, next);
      }
    }
    ClosedHoldsReached(KeyEdges(installed, seeds), other, seeds, key);
  }

  lemma SeedsAreKeys(installed: Installed, requirements: seq<Requirement>)
    ensures KeysOf(requirements) <= AllKeys(installed, KeysOf(requirements))
  {
  }

  lemma EdgesAreDependencies(installed: Installed, seeds: set<Key>, key: Key)
    requires key in AllKeys(installed, seeds)
    ensures Targets(KeyEdges(installed, seeds), key) == DependencyKeys(installed, key)
    ensures DependencyKeys(installed, key) <= AllKeys(installed, seeds)
  {
  }
}
