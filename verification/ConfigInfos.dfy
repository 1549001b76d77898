/**
 Registries of device configurations: a list searched by id, with a conflict check between its
 members.  The id of an item and the check are parameters of a registry.
 */
module ConfigRegistry {
  import opened Prelude

  type Id = string

  /** How items are named, and the error with which the first rejects the second. */
  datatype Rules<!T, +E> = Rules(id: T -> Id, check: (T, T) -> Option<E>)

  /** Between items of different ids the check is symmetric. */
  ghost predicate Symmetric<T(!new), E>(rules: Rules<T, E>) {
    forall a, b | rules.id(a) != rules.id(b) :: rules.check(a, b).Some? <==> rules.check(b, a).Some?
  }

  ghost predicate RejectsEqualIds<T(!new), E>(rules: Rules<T, E>) {
    forall a, b | rules.id(a) == rules.id(b) :: rules.check(a, b).Some?
  }

  /** The check is symmetric and rejects equal ids. */
  ghost predicate Sound<T(!new), E>(rules: Rules<T, E>) {
    Symmetric(rules) && RejectsEqualIds(rules)
  }

  ghost predicate ConflictFree<T, E>(rules: Rules<T, E>, s: seq<T>) {
    forall i, j | 0 <= i < |s| && 0 <= j < |s| && i != j :: rules.check(s[i], s[j]).None?
  }

  ghost predicate DistinctIds<T, E>(rules: Rules<T, E>, s: seq<T>) {
    forall i, j | 0 <= i < j < |s| :: rules.id(s[i]) != rules.id(s[j])
  }

  // ---------------------------------------------------------------- the operations on lists

  /** `position`: the first item with this id. */
  function IndexById<T, E>(rules: Rules<T, E>, s: seq<T>, id: Id): (r: Option<nat>)
    ensures r.Some? ==> r.value < |s| && rules.id(s[r.value]) == id
    ensures r.None? ==> forall i | 0 <= i < |s| :: rules.id(s[i]) != id
  {
    if s == [] then None
    else if rules.id(s[0]) == id then Some(0)
    else
      match IndexById(rules, s[1..], id)
      case Some(i) => Some(i + 1)
      case None => None
  }

  /** `rfind`: the last item with this id. */
  function GetById<T, E>(rules: Rules<T, E>, s: seq<T>, id: Id): (r: Option<T>)
    ensures r.Some? ==> exists i | 0 <= i < |s| :: s[i] == r.value && rules.id(s[i]) == id
    ensures r.None? ==> forall i | 0 <= i < |s| :: rules.id(s[i]) != id
  {
    if s == [] then None
    else
      var last := s[|s| - 1];
      if rules.id(last) == id then Some(last) else GetById(rules, s[..|s| - 1], id)
  }

  /** The first conflict of a new item with the listed ones from `from` on, one of them set aside. */
  function FirstConflict<T, E>(rules: Rules<T, E>, s: seq<T>, config: T, aside: Option<nat>, from: nat): (r: Option<E>)
    requires from <= |s|
    ensures r.None? <==> forall i | from <= i < |s| && aside != Some(i) :: rules.check(config, s[i]).None?
    decreases |s| - from
  {
    if from == |s| then None
    else if aside != Some(from) && rules.check(config, s[from]).Some? then rules.check(config, s[from])
    else FirstConflict(rules, s, config, aside, from + 1)
  }

  /** The error reported is that of the first item in conflict. */
  lemma {:induction false} FirstConflictIsFirst<T, E>(rules: Rules<T, E>, s: seq<T>, config: T, aside: Option<nat>,
                                                      from: nat) returns (i: nat)
    requires from <= |s| && FirstConflict(rules, s, config, aside, from).Some?
    ensures from <= i < |s| && aside != Some(i)
    ensures FirstConflict(rules, s, config, aside, from) == rules.check(config, s[i])
    ensures forall j | from <= j < i && aside != Some(j) :: rules.check(config, s[j]).None?
    decreases |s| - from
  {
    if aside != Some(from) && rules.check(config, s[from]).Some? {
      i := from;
    } else {
      i := FirstConflictIsFirst(rules, s, config, aside, from + 1);
    }
  }

  datatype Call<T, E> =
    | Insert(config: T)
    | Update(config: T, missing: E)
    | InsertOrUpdate(config: T)
    | Remove(config: T)

  /** The list after a call, and the error of a failed one. */
  function Step<T, E>(rules: Rules<T, E>, s: seq<T>, call: Call<T, E>): (seq<T>, Option<E>) {
    var index := IndexById(rules, s, rules.id(call.config));
    match call
    case Insert(config) =>
      var e := FirstConflict(rules, s, config, None, 0);
      if e.Some? then (s, e) else (s + [config], None)
    case Update(config, missing) =>
      if index.None? then (s, Some(missing))
      else
        var e := FirstConflict(rules, s, config, index, 0);
        if e.Some? then (s, e) else (s[index.value := config], None)
    case InsertOrUpdate(config) =>
      var e := FirstConflict(rules, s, config, index, 0);
      if e.Some? then (s, e)
      else if index.None? then (s + [config], None)
      else (s[index.value := config], None)
    case Remove(config) =>
      if index.None? then (s, None) else (s[..index.value] + s[index.value + 1..], None)
  }

  function Run<T, E>(rules: Rules<T, E>, s: seq<T>, calls: seq<Call<T, E>>): seq<T>
    decreases |calls|
  {
    if calls == [] then s else Run(rules, Step(rules, s, calls[0]).0, calls[1..])
  }

  // ---------------------------------------------------------------- the same on a map by id

  /** Nothing in the map conflicts with the item, apart from what is under `except`. */
  ghost predicate Fits<T, E>(rules: Rules<T, E>, m: map<Id, T>, config: T, except: Option<Id>) {
    forall k <- m | except != Some(k) :: rules.check(config, m[k]).None?
  }

  /** The map after a call, and whether the call succeeded. */
  ghost function MapStep<T, E>(rules: Rules<T, E>, m: map<Id, T>, call: Call<T, E>): (map<Id, T>, bool) {
    var id := rules.id(call.config);
    var ok :=
      match call
      case Insert(config) => Fits(rules, m, config, None)
      case Update(config, _) => id in m && Fits(rules, m, config, Some(id))
      case InsertOrUpdate(config) => Fits(rules, m, config, Some(id))
      case Remove(_) => true;
    (if !ok then m else if call.Remove? then m - {id} else m[id := call.config], ok)
  }

  ghost function MapRun<T, E>(rules: Rules<T, E>, m: map<Id, T>, calls: seq<Call<T, E>>): map<Id, T>
    decreases |calls|
  {
    if calls == [] then m else MapRun(rules, MapStep(rules, m, calls[0]).0, calls[1..])
  }

  /** The list holds exactly the entries of the map, one item for each id. */
  ghost predicate Represents<T, E>(rules: Rules<T, E>, s: seq<T>, m: map<Id, T>) {
    && DistinctIds(rules, s)
    && (forall i | 0 <= i < |s| :: rules.id(s[i]) in m && m[rules.id(s[i])] == s[i])
    && (forall k <- m :: IndexById(rules, s, k).Some?)
  }

  // ---------------------------------------------------------------- refinement

  lemma IndexIs<T, E>(rules: Rules<T, E>, s: seq<T>, i: nat)
    requires DistinctIds(rules, s) && i < |s|
    ensures IndexById(rules, s, rules.id(s[i])) == Some(i)
  {
    var r := IndexById(rules, s, rules.id(s[i]));
    assert r.Some? && !(r.value < i) && !(i < r.value);
  }

  /** First-match and last-match lookups find the same item. */
  lemma LookupsAgree<T, E>(rules: Rules<T, E>, s: seq<T>, id: Id)
    requires DistinctIds(rules, s)
    ensures var i := IndexById(rules, s, id);
      GetById(rules, s, id) == if i.Some? then Some(s[i.value]) else None
  {
    var g := GetById(rules, s, id);
    if g.Some? {
      var j :| 0 <= j < |s| && s[j] == g.value && rules.id(s[j]) == id;
      IndexIs(rules, s, j);
    }
  }

  /** And what they find is what the map holds. */
  lemma LookupsReadTheMap<T, E>(rules: Rules<T, E>, s: seq<T>, m: map<Id, T>, id: Id)
    requires Represents(rules, s, m)
    ensures GetById(rules, s, id) == if id in m then Some(m[id]) else None
  {
    LookupsAgree(rules, s, id);
  }

  /** Conflicts with the list are conflicts with the map. */
  lemma FitsIsNoConflict<T, E>(rules: Rules<T, E>, s: seq<T>, m: map<Id, T>, config: T, except: Option<Id>)
    requires Represents(rules, s, m)
    ensures var aside := if except.Some? then IndexById(rules, s, except.value) else None;
      Fits(rules, m, config, except) <==> FirstConflict(rules, s, config, aside, 0).None?
  {
    var aside := if except.Some? then IndexById(rules, s, except.value) else None;
    if Fits(rules, m, config, except) {
      forall i | 0 <= i < |s| && aside != Some(i) ensures rules.check(config, s[i]).None? {
        IndexIs(rules, s, i);
      }
    } else {
      var k :| k in m && except != Some(k) && rules.check(config, m[k]).Some?;
      var i := IndexById(rules, s, k).value;
      assert m[k] == s[i];
    }
  }

  lemma Appended<T, E>(rules: Rules<T, E>, s: seq<T>, m: map<Id, T>, config: T)
    requires Represents(rules, s, m) && IndexById(rules, s, rules.id(config)).None?
    ensures Represents(rules, s + [config], m[rules.id(config) := config])
  {
    var t, id := s + [config], rules.id(config);
    assert t[|s|] == config;
    forall k <- m[id := config] ensures IndexById(rules, t, k).Some? {
      if k != id {
        var i := IndexById(rules, s, k).value;
        assert t[i] == s[i];
      }
    }
  }

  lemma Replaced<T, E>(rules: Rules<T, E>, s: seq<T>, m: map<Id, T>, config: T, index: nat)
    requires Represents(rules, s, m) && index < |s| && rules.id(s[index]) == rules.id(config)
    ensures Represents(rules, s[index := config], m[rules.id(config) := config])
  {
    var t, id := s[index := config], rules.id(config);
    assert t[index] == config && forall i | 0 <= i < |t| :: rules.id(t[i]) == rules.id(s[i]);
    forall i | 0 <= i < |t| && i != index ensures rules.id(t[i]) != id {
      IndexIs(rules, s, index);
      IndexIs(rules, s, i);
    }
    forall k <- m[id := config] ensures IndexById(rules, t, k).Some? {
      if k != id {
        var i := IndexById(rules, s, k).value;
        assert i != index && t[i] == s[i];
      }
    }
  }

  lemma Dropped<T, E>(rules: Rules<T, E>, s: seq<T>, m: map<Id, T>, index: nat)
    requires Represents(rules, s, m) && index < |s|
    ensures Represents(rules, s[..index] + s[index + 1..], m - {rules.id(s[index])})
  {
    hide IndexById;
    var t, id := s[..index] + s[index + 1..], rules.id(s[index]);
    assert forall i | 0 <= i < |t| :: t[i] == s[if i < index then i else i + 1];
    forall i | 0 <= i < |t| ensures rules.id(t[i]) != id {
      IndexIs(rules, s, index);
      IndexIs(rules, s, if i < index then i else i + 1);
    }
    forall k <- m - {id} ensures IndexById(rules, t, k).Some? {
      var i := IndexById(rules, s, k).value;
      assert i != index && t[if i < index then i else i - 1] == s[i];
    }
  }

  /** Only a plain insertion can put an id on the list twice, and only if the check lets it. */
  ghost predicate KeepsIds<T(!new), E>(rules: Rules<T, E>, call: Call<T, E>) {
    call.Insert? ==> RejectsEqualIds(rules)
  }

  /**
   What one call does to the list is what it does to the map, whatever the conflict check: same
   verdict, and a failed call changes nothing.
   */
  lemma StepRefines<T(!new), E>(rules: Rules<T, E>, s: seq<T>, m: map<Id, T>, call: Call<T, E>)
    requires Represents(rules, s, m) && KeepsIds(rules, call)
    ensures var (t, e) := Step(rules, s, call);
      var (m', ok) := MapStep(rules, m, call);
      (e.None? <==> ok) && (e.Some? ==> t == s) && Represents(rules, t, m')
  {
    var id := rules.id(call.config);
    var index := IndexById(rules, s, id);
    assert index.Some? <==> id in m;
    var verdict := if call.Insert? then FirstConflict(rules, s, call.config, None, 0)
                   else FirstConflict(rules, s, call.config, index, 0);
    FitsIsNoConflict(rules, s, m, call.config, if call.Insert? then None else Some(id));
    if call.Insert? && verdict.None? { UnlistedId(rules, s, call.config); }
    hide Fits, Represents, IndexById, FirstConflict, KeepsIds;
    if call.Remove? {
      if index.Some? { Dropped(rules, s, m, index.value); } else { assert m - {id} == m; }
    } else if verdict.None? {
      if index.None? { Appended(rules, s, m, call.config); } else { Replaced(rules, s, m, call.config, index.value); }
    }
  }

  lemma UnlistedId<T(!new), E>(rules: Rules<T, E>, s: seq<T>, config: T)
    requires RejectsEqualIds(rules) && FirstConflict(rules, s, config, None, 0).None?
    ensures IndexById(rules, s, rules.id(config)).None?
  {
    assert forall i | 0 <= i < |s| :: rules.check(config, s[i]).None?;
  }

  /** Every call keeps the list conflict-free if the check is symmetric between different ids. */
  lemma StepKeepsFree<T(!new), E>(rules: Rules<T, E>, s: seq<T>, call: Call<T, E>)
    requires Symmetric(rules) && KeepsIds(rules, call) && DistinctIds(rules, s) && ConflictFree(rules, s)
    ensures ConflictFree(rules, Step(rules, s, call).0)
  {
    var (t, e) := Step(rules, s, call);
    var config := call.config;
    var index := IndexById(rules, s, rules.id(config));
    if index.Some? {
      forall i | 0 <= i < |s| && i != index.value ensures rules.id(s[i]) != rules.id(config) { IndexIs(rules, s, i); }
    }
    if call.Insert? && e.None? { UnlistedId(rules, s, config); }
    hide IndexById;
    if call.Remove? {
      if index.Some? { assert forall i | 0 <= i < |t| :: t[i] == s[if i < index.value then i else i + 1]; }
    } else if e.None? {
      var at := if index.Some? then index.value else |s|;
      assert t[at] == config && forall i | 0 <= i < |s| && i != at :: t[i] == s[i];
      forall i | 0 <= i < |s| && i != at
        ensures rules.check(config, s[i]).None? && rules.check(s[i], config).None?
      {
        assert rules.id(s[i]) != rules.id(config);
      }
    }
  }

  ghost function MapOf<T, E>(rules: Rules<T, E>, s: seq<T>): map<Id, T> {
    map i | 0 <= i < |s| :: rules.id(s[i]) := s[IndexById(rules, s, rules.id(s[i])).value]
  }

  /** Every list of distinct ids represents a map. */
  lemma Mapped<T, E>(rules: Rules<T, E>, s: seq<T>)
    requires DistinctIds(rules, s)
    ensures Represents(rules, s, MapOf(rules, s))
  {
    forall i | 0 <= i < |s| ensures MapOf(rules, s)[rules.id(s[i])] == s[i] { IndexIs(rules, s, i); }
  }

  lemma StepKeepsIds<T(!new), E>(rules: Rules<T, E>, s: seq<T>, call: Call<T, E>)
    requires DistinctIds(rules, s) && KeepsIds(rules, call)
    ensures DistinctIds(rules, Step(rules, s, call).0)
  {
    Mapped(rules, s);
    StepRefines(rules, s, MapOf(rules, s), call);
  }

  /**
   Every run keeps the list equal to the map run by the same calls, and conflict-free if the check
   is symmetric.
   */
  lemma {:induction false} RunRefines<T(!new), E>(rules: Rules<T, E>, s: seq<T>, m: map<Id, T>, calls: seq<Call<T, E>>)
    requires Represents(rules, s, m) && forall c <- calls :: KeepsIds(rules, c)
    ensures Represents(rules, Run(rules, s, calls), MapRun(rules, m, calls))
    ensures Symmetric(rules) && ConflictFree(rules, s) ==> ConflictFree(rules, Run(rules, s, calls))
    decreases |calls|
  {
    if calls != [] {
      var call := calls[0];
      assert KeepsIds(rules, call) && DistinctIds(rules, s);
      hide KeepsIds, Symmetric, ConflictFree, Represents, DistinctIds;
      StepRefines(rules, s, m, call);
      if Symmetric(rules) && ConflictFree(rules, s) { StepKeepsFree(rules, s, call); }
      RunRefines(rules, Step(rules, s, call).0, MapStep(rules, m, call).0, calls[1..]);
    }
  }

  /**
   Sound rules are exactly what the plain registry needs: every run from the empty list keeps it
   conflict-free and its ids distinct if and only if the check is symmetric between different ids
   and rejects equal ones.
   */
  lemma SoundExactly<T(!new), E(!new)>(rules: Rules<T, E>)
    ensures
      Sound(rules) <==>
      forall calls: seq<Call<T, E>> ::
        ConflictFree(rules, Run(rules, [], calls)) && DistinctIds(rules, Run(rules, [], calls))
  {
    if Sound(rules) {
      forall calls: seq<Call<T, E>>
        ensures ConflictFree(rules, Run(rules, [], calls)) && DistinctIds(rules, Run(rules, [], calls))
      {
        RunRefines(rules, [], map[], calls);
      }
    } else {
      var a, b :| if rules.id(a) == rules.id(b) then rules.check(a, b).None?
                  else rules.check(a, b).None? && rules.check(b, a).Some?;
      InsertBoth(rules, b, a);
      var calls: seq<Call<T, E>> := [Insert(b), Insert(a)];
      var both := Run(rules, [], calls);
      assert both[0] == b && both[1] == a;
    }
  }

  lemma InsertBoth<T(!new), E>(rules: Rules<T, E>, first: T, second: T)
    requires rules.check(second, first).None?
    ensures Run<T, E>(rules, [], [Insert(first), Insert(second)]) == [first, second]
  {
    var none: seq<T> := [];
    var calls: seq<Call<T, E>> := [Insert(first), Insert(second)];
    assert Step<T, E>(rules, none, Insert(first)).0 == none + [first] == [first];
    assert FirstConflict(rules, [first], second, None, 0).None?;
    assert Step<T, E>(rules, [first], Insert(second)).0 == [first] + [second] == [first, second];
    hide Step;
    assert calls[1..] == [Insert(second)] && calls[1..][1..] == [];
    assert Run(rules, none, calls) == Run(rules, [first], calls[1..]) == Run(rules, [first, second], calls[1..][1..]);
  }

  // ---------------------------------------------------------------- configurations with their devices

  datatype DeviceInfo<+T, +D> = DeviceInfo(config: T, device: Option<D>)

  function Configs<T, D>(infos: seq<DeviceInfo<T, D>>): (s: seq<T>)
    ensures |s| == |infos|
  {
    seq(|infos|, i requires 0 <= i < |infos| => infos[i].config)
  }

  /** Here the listed item checks the new one. */
  function Swapped<T, E>(rules: Rules<T, E>): Rules<T, E> {
    Rules(rules.id, (a, b) => rules.check(b, a))
  }

  /** `DeviceConfigInfos::insert_or_update`: the new list, and the index or the error. */
  function DeviceUpsert<T, D, E>(rules: Rules<T, E>, infos: seq<DeviceInfo<T, D>>, config: T)
    : (seq<DeviceInfo<T, D>>, Option<nat>, Option<E>)
  {
    var index := IndexById(rules, Configs(infos), rules.id(config));
    var e := FirstConflict(Swapped(rules), Configs(infos), config, index, 0);
    if e.Some? then (infos, None, e)
    else if index.None? then (infos + [DeviceInfo(config, None)], Some(|infos|), None)
    else (infos[index.value := infos[index.value].(config := config)], index, None)
  }

  lemma {:induction false} SwappedIndex<T, E>(rules: Rules<T, E>, s: seq<T>, id: Id)
    ensures IndexById(Swapped(rules), s, id) == IndexById(rules, s, id)
  {
    if s != [] { SwappedIndex(rules, s[1..], id); }
  }

  lemma SwappedRepresents<T, E>(rules: Rules<T, E>, s: seq<T>, m: map<Id, T>)
    ensures Represents(Swapped(rules), s, m) <==> Represents(rules, s, m)
  {
    forall k <- m ensures IndexById(Swapped(rules), s, k) == IndexById(rules, s, k) { SwappedIndex(rules, s, k); }
  }

  lemma SwappedIsSame<T(!new), E>(rules: Rules<T, E>, s: seq<T>)
    ensures Symmetric(Swapped(rules)) <==> Symmetric(rules)
    ensures ConflictFree(Swapped(rules), s) <==> ConflictFree(rules, s)
    ensures DistinctIds(Swapped(rules), s) <==> DistinctIds(rules, s)
  {
  }

  lemma ConfigsAppended<T, D>(infos: seq<DeviceInfo<T, D>>, config: T)
    ensures Configs(infos + [DeviceInfo(config, None)]) == Configs(infos) + [config]
  {
  }

  lemma ConfigsReplaced<T, D>(infos: seq<DeviceInfo<T, D>>, config: T, i: nat)
    requires i < |infos|
    ensures Configs(infos[i := infos[i].(config := config)]) == Configs(infos)[i := config]
  {
  }

  lemma ConfigsDropped<T, D>(infos: seq<DeviceInfo<T, D>>, index: nat)
    requires index < |infos|
    ensures Configs(infos[..index] + infos[index + 1..]) == Configs(infos)[..index] + Configs(infos)[index + 1..]
    ensures Configs(infos)[index] == infos[index].config
  {
  }

  /**
   Whatever the conflict check, the configurations change as in the plain registry with the two
   sides of the check swapped, with the same error; the index returned holds the new one, and
   devices stay.
   */
  lemma DeviceUpsertRefines<T, D, E>(rules: Rules<T, E>, infos: seq<DeviceInfo<T, D>>, config: T)
    ensures var (after, index, e) := DeviceUpsert(rules, infos, config);
      && (Configs(after), e) == Step(Swapped(rules), Configs(infos), InsertOrUpdate(config))
      && (e.None? <==> index.Some?)
      && (index.Some? ==> index.value < |after| && after[index.value].config == config)
      && (forall i | 0 <= i < |infos| :: i < |after| && after[i].device == infos[i].device)
      && (forall i | |infos| <= i < |after| :: after[i].device == None)
  {
    var s := Configs(infos);
    var index := IndexById(rules, s, rules.id(config));
    SwappedIndex(rules, s, rules.id(config));
    assert Swapped(rules).id(config) == rules.id(config);
    ConfigsAppended(infos, config);
    if index.Some? { ConfigsReplaced(infos, config, index.value); }
    hide Configs, IndexById, FirstConflict, Swapped;
  }

  // ---------------------------------------------------------------- the registries, changed in place

  class ConfigInfos<T(!new), E> {
    const rules: Rules<T, E>
    var configs: seq<T>

    ghost predicate Valid()
      reads this
    {
      DistinctIds(rules, configs) && (Symmetric(rules) ==> ConflictFree(rules, configs))
    }

    constructor (rules: Rules<T, E>)
      ensures Valid() && configs == [] && this.rules == rules
    {
      this.rules, configs := rules, [];
    }

    method GetIndexById(id: Id) returns (r: Option<nat>)
      ensures r == IndexById(rules, configs, id)
    {
      var i := 0;
      while i < |configs|
        invariant 0 <= i <= |configs|
        invariant IndexById(rules, configs, id) ==
          var rest := IndexById(rules, configs[i..], id); if rest.Some? then Some(rest.value + i) else None
      {
        assert configs[i..][0] == configs[i] && configs[i..][1..] == configs[i + 1..];
        if rules.id(configs[i]) == id { return Some(i); }
        i := i + 1;
      }
      r := None;
    }

    /** The conflict loop of every operation that adds or changes an item. */
    method CheckAgainst(config: T, aside: Option<nat>) returns (e: Option<E>)
      ensures e == FirstConflict(rules, configs, config, aside, 0)
    {
      var i := 0;
      while i < |configs|
        invariant 0 <= i <= |configs|
        invariant FirstConflict(rules, configs, config, aside, i) == FirstConflict(rules, configs, config, aside, 0)
      {
        if aside != Some(i) {
          var r := rules.check(config, configs[i]);
          if r.Some? { return r; }
        }
        i := i + 1;
      }
      e := None;
    }

    method Insert(config: T) returns (e: Option<E>)
      modifies this
      ensures (configs, e) == Step(rules, old(configs), Call.Insert(config))
      ensures old(Valid()) && RejectsEqualIds(rules) ==> Valid()
    {
      ValidStep(rules, configs, Call.Insert(config));
      hide Symmetric, RejectsEqualIds, DistinctIds, ConflictFree, FirstConflict;
      e := CheckAgainst(config, None);
      if e.Some? { return; }
      configs := configs + [config];
    }

    method Update(config: T, missing: E) returns (e: Option<E>)
      modifies this
      ensures (configs, e) == Step(rules, old(configs), Call.Update(config, missing))
      ensures old(Valid()) ==> Valid()
    {
      ValidStep(rules, configs, Call.Update(config, missing));
      hide Symmetric, RejectsEqualIds, DistinctIds, ConflictFree, FirstConflict;
      var index := GetIndexById(rules.id(config));
      if index.None? { return Some(missing); }
      e := CheckAgainst(config, index);
      if e.Some? { return; }
      configs := configs[index.value := config];
    }

    method InsertOrUpdate(config: T) returns (e: Option<E>)
      modifies this
      ensures (configs, e) == Step(rules, old(configs), Call.InsertOrUpdate(config))
      ensures old(Valid()) ==> Valid()
    {
      ValidStep(rules, configs, Call.InsertOrUpdate(config));
      hide Symmetric, RejectsEqualIds, DistinctIds, ConflictFree, FirstConflict;
      var index := GetIndexById(rules.id(config));
      e := CheckAgainst(config, index);
      if e.Some? { return; }
      if index.None? {
        configs := configs + [config];
      } else {
        configs := configs[index.value := config];
      }
    }

    /** The first item with the id is removed; with distinct ids it is the one both lookups find. */
    method Remove(config: T) returns (r: Option<T>)
      modifies this
      ensures configs == Step(rules, old(configs), Call.Remove(config)).0
      ensures r == var i := IndexById(rules, old(configs), rules.id(config));
        if i.Some? then Some(old(configs)[i.value]) else None
      ensures old(Valid()) ==> Valid() && r == GetById(rules, old(configs), rules.id(config))
    {
      ValidStep(rules, configs, Call.Remove(config));
      if DistinctIds(rules, configs) { LookupsAgree(rules, configs, rules.id(config)); }
      hide Symmetric, RejectsEqualIds, DistinctIds, ConflictFree, FirstConflict, GetById, IndexById;
      var index := GetIndexById(rules.id(config));
      if index.None? { return None; }
      r := Some(configs[index.value]);
      configs := configs[..index.value] + configs[index.value + 1..];
    }
  }

  lemma ValidStep<T(!new), E>(rules: Rules<T, E>, s: seq<T>, call: Call<T, E>)
    ensures var t := Step(rules, s, call).0;
      (call.Insert? ==> RejectsEqualIds(rules)) && DistinctIds(rules, s) ==>
        && DistinctIds(rules, t)
        && (Symmetric(rules) && ConflictFree(rules, s) ==> ConflictFree(rules, t))
  {
    hide Symmetric, RejectsEqualIds, DistinctIds, ConflictFree;
    if KeepsIds(rules, call) && DistinctIds(rules, s) {
      StepKeepsIds(rules, s, call);
      if Symmetric(rules) && ConflictFree(rules, s) { StepKeepsFree(rules, s, call); }
    }
  }

  class DeviceConfigInfos<T(!new), D, E> {
    const rules: Rules<T, E>
    var infos: seq<DeviceInfo<T, D>>

    ghost predicate Valid()
      reads this
    {
      DistinctIds(rules, Configs(infos)) && (Symmetric(rules) ==> ConflictFree(rules, Configs(infos)))
    }

    constructor (rules: Rules<T, E>)
      ensures Valid() && infos == [] && this.rules == rules
    {
      this.rules, infos := rules, [];
    }

    method GetIndexById(id: Id) returns (r: Option<nat>)
      ensures r == IndexById(rules, Configs(infos), id)
    {
      ghost var s := Configs(infos);
      var i := 0;
      while i < |infos|
        invariant 0 <= i <= |infos|
        invariant IndexById(rules, s, id) ==
          var rest := IndexById(rules, s[i..], id); if rest.Some? then Some(rest.value + i) else None
      {
        assert s[i..][0] == infos[i].config && s[i..][1..] == s[i + 1..];
        if rules.id(infos[i].config) == id { return Some(i); }
        i := i + 1;
      }
      r := None;
    }

    method CheckAgainst(config: T, aside: Option<nat>) returns (e: Option<E>)
      ensures e == FirstConflict(Swapped(rules), Configs(infos), config, aside, 0)
    {
      ghost var s, swapped := Configs(infos), Swapped(rules);
      var i := 0;
      while i < |infos|
        invariant 0 <= i <= |infos|
        invariant FirstConflict(swapped, s, config, aside, i) == FirstConflict(swapped, s, config, aside, 0)
      {
        if aside != Some(i) {
          var r := rules.check(infos[i].config, config);
          assert r == swapped.check(config, s[i]);
          if r.Some? { return r; }
        }
        i := i + 1;
      }
      e := None;
    }

    method InsertOrUpdate(config: T) returns (index: Option<nat>, e: Option<E>)
      requires Valid()
      modifies this
      ensures Valid() && (infos, index, e) == DeviceUpsert(rules, old(infos), config)
    {
      DeviceValid(rules, infos, Upsert(config));
      index := GetIndexById(rules.id(config));
      hide Configs, ConflictFree, Symmetric, DistinctIds, IndexById, FirstConflict, Swapped;
      e := CheckAgainst(config, index);
      if e.Some? { return None, e; }
      if index.Some? {
        infos := infos[index.value := infos[index.value].(config := config)];
      } else {
        infos := infos + [DeviceInfo(config, None)];
        index := Some(|infos| - 1);
      }
    }

    method Remove(index: nat) returns (r: Option<DeviceInfo<T, D>>)
      requires Valid()
      modifies this
      ensures Valid()
      ensures r == if index < |old(infos)| then Some(old(infos)[index]) else None
      ensures infos == if index < |old(infos)| then old(infos)[..index] + old(infos)[index + 1..] else old(infos)
    {
      if index >= |infos| { return None; }
      DeviceValid(rules, infos, RemoveAt(index));
      hide Configs, ConflictFree, Symmetric, DistinctIds;
      r := Some(infos[index]);
      infos := infos[..index] + infos[index + 1..];
    }
  }

  // ---------------------------------------------------------------- runs of the device registry

  datatype DeviceCall<T> = Upsert(config: T) | RemoveAt(index: nat)

  function DeviceStep<T, D, E>(rules: Rules<T, E>, infos: seq<DeviceInfo<T, D>>, call: DeviceCall<T>)
    : seq<DeviceInfo<T, D>>
  {
    match call
    case Upsert(config) => DeviceUpsert(rules, infos, config).0
    case RemoveAt(index) => if index < |infos| then infos[..index] + infos[index + 1..] else infos
  }

  lemma DeviceValid<T(!new), D, E>(rules: Rules<T, E>, infos: seq<DeviceInfo<T, D>>, call: DeviceCall<T>)
    requires DistinctIds(rules, Configs(infos))
    ensures var s, t := Configs(infos), Configs(DeviceStep(rules, infos, call));
      && DistinctIds(rules, t)
      && (Symmetric(rules) && ConflictFree(rules, s) ==> ConflictFree(rules, t))
  {
    var s, t := Configs(infos), Configs(DeviceStep(rules, infos, call));
    match call
    case Upsert(config) =>
      SwappedIsSame(rules, s);
      SwappedIsSame(rules, t);
      ValidStep(Swapped(rules), s, InsertOrUpdate(config));
      DeviceUpsertRefines(rules, infos, config);
    case RemoveAt(index) =>
      if index < |infos| {
        assert forall i | 0 <= i < |t| :: t[i] == s[if i < index then i else i + 1];
      }
  }

  type DeviceMap<T, D> = map<Id, DeviceInfo<T, D>>

  ghost function ConfigMap<T, D>(m: DeviceMap<T, D>): map<Id, T> {
    map k <- m :: m[k].config
  }

  /** On the map by id: an upsert keeps the device of its id; a removal drops the id found at the index. */
  ghost function DeviceMapStep<T, D, E>(rules: Rules<T, E>, infos: seq<DeviceInfo<T, D>>, m: DeviceMap<T, D>,
                                        call: DeviceCall<T>): DeviceMap<T, D> {
    match call
    case Upsert(config) =>
      var id := rules.id(config);
      if forall k <- m | k != id :: rules.check(m[k].config, config).None?
      then m[id := DeviceInfo(config, if id in m then m[id].device else None)] else m
    case RemoveAt(index) => if index < |infos| then m - {rules.id(infos[index].config)} else m
  }

  /** The list holds exactly the entries of the map, one for each id. */
  ghost predicate DeviceRepresents<T, D, E>(rules: Rules<T, E>, infos: seq<DeviceInfo<T, D>>, m: DeviceMap<T, D>) {
    && Represents(rules, Configs(infos), ConfigMap(m))
    && (forall i | 0 <= i < |infos| :: rules.id(infos[i].config) in m && m[rules.id(infos[i].config)] == infos[i])
  }

  lemma DeviceUpsertMap<T(!new), D, E>(rules: Rules<T, E>, infos: seq<DeviceInfo<T, D>>, m: DeviceMap<T, D>, config: T)
    requires DeviceRepresents(rules, infos, m)
    ensures var call := Upsert(config);
      DeviceRepresents(rules, DeviceStep(rules, infos, call), DeviceMapStep(rules, infos, m, call))
  {
    var s, id, swapped := Configs(infos), rules.id(config), Swapped(rules);
    var after, m' := DeviceStep(rules, infos, Upsert(config)), DeviceMapStep(rules, infos, m, Upsert(config));
    SwappedRepresents(rules, s, ConfigMap(m));
    DeviceUpsertRefines(rules, infos, config);
    StepRefines(swapped, s, ConfigMap(m), InsertOrUpdate(config));
    SwappedRepresents(rules, Configs(after), ConfigMap(m'));
    FitsIsClear(rules, m, config);
    if DeviceUpsert(rules, infos, config).2.None? {
      UpsertEntries(rules, infos, m, config);
      ConfigMapUpdated(m, id, DeviceInfo(config, if id in m then m[id].device else None));
    }
  }

  lemma FitsIsClear<T, D, E>(rules: Rules<T, E>, m: DeviceMap<T, D>, config: T)
    ensures var id := rules.id(config);
      Fits(Swapped(rules), ConfigMap(m), config, Some(id)) <==>
      forall k <- m | k != id :: rules.check(m[k].config, config).None?
  {
    forall k <- m ensures Swapped(rules).check(config, ConfigMap(m)[k]) == rules.check(m[k].config, config) {}
  }

  lemma ConfigMapUpdated<T, D>(m: DeviceMap<T, D>, id: Id, info: DeviceInfo<T, D>)
    ensures ConfigMap(m[id := info]) == ConfigMap(m)[id := info.config]
  {
  }

  /** The entries after an upsert that goes through. */
  lemma UpsertEntries<T, D, E>(rules: Rules<T, E>, infos: seq<DeviceInfo<T, D>>, m: DeviceMap<T, D>, config: T)
    requires DeviceRepresents(rules, infos, m) && DeviceUpsert(rules, infos, config).2.None?
    ensures var after, id := DeviceUpsert(rules, infos, config).0, rules.id(config);
      var m' := m[id := DeviceInfo(config, if id in m then m[id].device else None)];
      forall i | 0 <= i < |after| :: rules.id(after[i].config) in m' && m'[rules.id(after[i].config)] == after[i]
  {
    var id := rules.id(config);
    var index := IndexById(rules, Configs(infos), id);
    hide FirstConflict, Swapped;
    assert index.Some? ==> Configs(infos)[index.value] == infos[index.value].config;
    assert index.None? ==> id !in ConfigMap(m);
    forall i | 0 <= i < |infos| && index != Some(i) ensures rules.id(infos[i].config) != id {
      assert Configs(infos)[i] == infos[i].config;
      IndexIs(rules, Configs(infos), i);
    }
  }

  lemma OtherEntry<T, D, E>(rules: Rules<T, E>, infos: seq<DeviceInfo<T, D>>, m: DeviceMap<T, D>, index: nat, j: nat)
    requires DeviceRepresents(rules, infos, m) && index < |infos| && j < |infos| && j != index
    ensures rules.id(infos[j].config) in m - {rules.id(infos[index].config)}
    ensures m[rules.id(infos[j].config)] == infos[j]
  {
    var s := Configs(infos);
    assert s[j] == infos[j].config && s[index] == infos[index].config;
    hide IndexById;
    if j < index { assert rules.id(s[j]) != rules.id(s[index]); } else { assert rules.id(s[index]) != rules.id(s[j]); }
  }

  lemma DeviceRemoveMap<T, D, E>(rules: Rules<T, E>, infos: seq<DeviceInfo<T, D>>, m: DeviceMap<T, D>, index: nat)
    requires DeviceRepresents(rules, infos, m) && index < |infos|
    ensures DeviceRepresents(rules, infos[..index] + infos[index + 1..], m - {rules.id(infos[index].config)})
  {
    var after, id := infos[..index] + infos[index + 1..], rules.id(infos[index].config);
    forall i | 0 <= i < |after|
      ensures rules.id(after[i].config) in m - {id} && m[rules.id(after[i].config)] == after[i]
    {
      OtherEntry(rules, infos, m, index, if i < index then i else i + 1);
    }
    ConfigsDropped(infos, index);
    assert ConfigMap(m - {id}) == ConfigMap(m) - {id};
    hide Configs, ConfigMap, DistinctIds, Represents;
    Dropped(rules, Configs(infos), ConfigMap(m), index);
  }

  function DeviceRun<T, D, E>(rules: Rules<T, E>, infos: seq<DeviceInfo<T, D>>, calls: seq<DeviceCall<T>>)
    : seq<DeviceInfo<T, D>>
    decreases |calls|
  {
    if calls == [] then infos else DeviceRun(rules, DeviceStep(rules, infos, calls[0]), calls[1..])
  }

  ghost function DeviceMapRun<T, D, E>(rules: Rules<T, E>, infos: seq<DeviceInfo<T, D>>, m: DeviceMap<T, D>,
                                       calls: seq<DeviceCall<T>>): DeviceMap<T, D>
    decreases |calls|
  {
    if calls == [] then m
    else DeviceMapRun(rules, DeviceStep(rules, infos, calls[0]), DeviceMapStep(rules, infos, m, calls[0]), calls[1..])
  }

  /**
   Whatever the conflict check, every run of upserts and removals by index keeps the device list
   equal to the map by id, and conflict-free if the check is symmetric between different ids.
   */
  lemma {:induction false} DeviceRunRefines<T(!new), D, E>(rules: Rules<T, E>, infos: seq<DeviceInfo<T, D>>,
                                                           m: DeviceMap<T, D>, calls: seq<DeviceCall<T>>)
    requires DeviceRepresents(rules, infos, m)
    ensures DeviceRepresents(rules, DeviceRun(rules, infos, calls), DeviceMapRun(rules, infos, m, calls))
    ensures Symmetric(rules) && ConflictFree(rules, Configs(infos)) ==>
      ConflictFree(rules, Configs(DeviceRun(rules, infos, calls)))
    decreases |calls|
  {
    assert DistinctIds(rules, Configs(infos));
    hide Symmetric, ConflictFree, DistinctIds, DeviceRepresents, DeviceUpsert, Configs;
    if calls != [] {
      DeviceValid(rules, infos, calls[0]);
      match calls[0] {
        case Upsert(config) => DeviceUpsertMap(rules, infos, m, config);
        case RemoveAt(index) => if index < |infos| { DeviceRemoveMap(rules, infos, m, index); }
      }
      DeviceRunRefines(rules, DeviceStep(rules, infos, calls[0]), DeviceMapStep(rules, infos, m, calls[0]), calls[1..]);
    }
  }

  /** A pair that conflicts in one direction only: one order lists both, the other refuses the second. */
  lemma OneWayConflict<T, D, E>(rules: Rules<T, E>, a: T, b: T)
    requires rules.id(a) != rules.id(b) && rules.check(a, b).None? && rules.check(b, a).Some?
    ensures DeviceRun<T, D, E>(rules, [], [Upsert(a), Upsert(b)]) == [DeviceInfo(a, None), DeviceInfo(b, None)]
    ensures DeviceRun<T, D, E>(rules, [], [Upsert(b), Upsert(a)]) == [DeviceInfo(b, None)]
    ensures !ConflictFree(rules, Configs(DeviceRun<T, D, E>(rules, [], [Upsert(a), Upsert(b)])))
  {
    TwoUpserts<T, D, E>(rules, a, b);
    TwoUpserts<T, D, E>(rules, b, a);
    hide DeviceRun;
    var both: seq<DeviceInfo<T, D>> := [DeviceInfo(a, None), DeviceInfo(b, None)];
    assert Configs(both)[1] == b && Configs(both)[0] == a;
  }

  lemma TwoUpserts<T, D, E>(rules: Rules<T, E>, first: T, second: T)
    requires rules.id(first) != rules.id(second)
    ensures DeviceRun<T, D, E>(rules, [], [Upsert(first), Upsert(second)]) ==
      [DeviceInfo(first, None)] + if rules.check(first, second).None? then [DeviceInfo(second, None)] else []
  {
    var none: seq<DeviceInfo<T, D>> := [];
    var one: seq<DeviceInfo<T, D>> := [DeviceInfo(first, None)];
    var calls := [Upsert(first), Upsert(second)];
    assert calls[1..] == [Upsert(second)] && calls[1..][1..] == [];
    assert Configs(one) == [first] && Configs(none) == [];
    assert DeviceStep(rules, none, Upsert(first)) == none + one == one;
    assert IndexById(rules, [first], rules.id(second)).None?;
    assert Swapped(rules).check(second, first) == rules.check(first, second);
    assert FirstConflict(Swapped(rules), [first], second, None, 0).None? <==> rules.check(first, second).None?;
    var two := DeviceStep(rules, one, Upsert(second));
    assert two == one + if rules.check(first, second).None? then [DeviceInfo(second, None)] else [];
    hide DeviceStep;
    assert DeviceRun(rules, none, calls) == DeviceRun(rules, one, calls[1..]) == DeviceRun(rules, two, calls[1..][1..]);
  }

  /**
   Every run from the empty list keeps it conflict-free if and only if the check is symmetric
   between different ids.
   */
  lemma DeviceFreeExactly<T(!new), D, E>(rules: Rules<T, E>)
    ensures
      Symmetric(rules) <==>
      forall calls: seq<DeviceCall<T>> :: ConflictFree(rules, Configs(DeviceRun<T, D, E>(rules, [], calls)))
  {
    if Symmetric(rules) {
      forall calls: seq<DeviceCall<T>>
        ensures ConflictFree(rules, Configs(DeviceRun<T, D, E>(rules, [], calls)))
      {
        DeviceRunRefines<T, D, E>(rules, [], map[], calls);
      }
    } else {
      var a, b :| rules.id(a) != rules.id(b) && rules.check(a, b).None? && rules.check(b, a).Some?;
      OneWayConflict<T, D, E>(rules, a, b);
    }
  }

  // ---------------------------------------------------------------- network devices

  datatype NetConfig = NetConfig(ifaceId: Id, guestMac: Option<string>, hostDevName: string, allowDuplicateMac: bool)

  datatype NetError = DeviceIdAlreadyExists(id: Id) | GuestMacInUse(mac: string) | HostDeviceNameInUse(name: string)

  /** Whether duplicates of an address are allowed is asked of the second item only. */
  function NetCheck(c: NetConfig, other: NetConfig): Option<NetError> {
    if c.ifaceId == other.ifaceId then Some(DeviceIdAlreadyExists(c.ifaceId))
    else if !other.allowDuplicateMac && c.guestMac.Some? && c.guestMac == other.guestMac then
      Some(GuestMacInUse(c.guestMac.value))
    else if c.hostDevName == other.hostDevName then Some(HostDeviceNameInUse(c.hostDevName))
    else None
  }

  function NetRules(): Rules<NetConfig, NetError> {
    Rules((c: NetConfig) => c.ifaceId, NetCheck)
  }

  /** Two devices share an address, on different host devices, and one of them alone minds. */
  predicate OneMinds(a: NetConfig, b: NetConfig) {
    && a.ifaceId != b.ifaceId && a.hostDevName != b.hostDevName
    && a.guestMac.Some? && a.guestMac == b.guestMac
    && b.allowDuplicateMac && !a.allowDuplicateMac
  }

  /**
   For two network devices the order of insertion matters if and only if they share an address and
   one alone minds; then the one that does not mind can follow, but not go before.
   */
  lemma NetOrderMatters<D>(a: NetConfig, b: NetConfig)
    requires a.ifaceId != b.ifaceId
    ensures var ab := DeviceRun<NetConfig, D, NetError>(NetRules(), [], [Upsert(a), Upsert(b)]);
      var ba := DeviceRun<NetConfig, D, NetError>(NetRules(), [], [Upsert(b), Upsert(a)]);
      && (|ab| == 2 && |ba| == 1 <==> OneMinds(a, b))
      && (|ab| == |ba| <==> !OneMinds(a, b) && !OneMinds(b, a))
      && (OneMinds(a, b) ==> !ConflictFree(NetRules(), Configs(ab)))
  {
    var rules := NetRules();
    assert rules.check(a, b) == NetCheck(a, b) && rules.check(b, a) == NetCheck(b, a);
    assert rules.id(a) == a.ifaceId && rules.id(b) == b.ifaceId;
    hide DeviceRun, ConflictFree, Configs, NetRules;
    TwoUpserts<NetConfig, D, NetError>(rules, a, b);
    TwoUpserts<NetConfig, D, NetError>(rules, b, a);
    if OneMinds(a, b) { OneWayConflict<NetConfig, D, NetError>(rules, a, b); }
  }
}
