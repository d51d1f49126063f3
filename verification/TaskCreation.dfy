/**
 Concurrent task creation under an idempotency key: look the key up, insert, and look it up again when the insert
 fails. Each database call is one step, and creators interleave with each other and with every queue statement.
 */
module TaskCreation {
  import opened Wrappers
  import opened RetryPolicy
  import opened TaskTable

  datatype CreatorState = Lookup | Insert | Recheck | Returned(id: nat) | GivenUp

  /** A caller in progress; `troubled` remembers whether any of its database calls reported an error. */
  datatype Creator = Creator(key: Option<string>, maxAttempts: int, state: CreatorState, troubled: bool)

  /** A call may succeed, fail without effect, or take effect and still report an error. */
  datatype Fate = Fine | Lost | AppliedButReported

  datatype Action =
    | Arrive(key: Option<string>, maxAttempts: int)
    | Advance(creator: nat, fate: Fate, now: Time)
    | Other(op: Op)

  datatype World = World(table: Table, creators: seq<Creator>)

  const START := World([], [])

  /** The first row with the key, as the lookup returns it. */
  function Find(t: Table, key: Option<string>): (found: Option<nat>)
    ensures key.None? ==> found.None?
    ensures found.Some? <==> KeyTaken(t, key)
    ensures found.Some? ==> found.value < |t| && t[found.value].key == key
  {
    if t == [] || key.None? then None
    else
      var earlier := Find(t[..|t| - 1], key);
      if earlier.Some? then earlier
      else if t[|t| - 1].key == key then Some(|t| - 1)
      else None
  }

  predicate Enabled(w: World, a: Action) {
    match a
    case Arrive(_, _) => true
    case Advance(c, _, _) => c < |w.creators| && (w.creators[c].state.Lookup? || w.creators[c].state.Insert?
                                                  || w.creators[c].state.Recheck?)
    case Other(op) => op.Create? ==> op.key.None?
  }

  function TableAfter(w: World, a: Action): Table
    requires Enabled(w, a)
  {
    match a
    case Arrive(_, _) => w.table
    case Other(op) => Apply(w.table, op)
    case Advance(c, fate, now) =>
      if w.creators[c].state.Insert? && !fate.Lost?
      then Apply(w.table, Create(w.creators[c].maxAttempts, w.creators[c].key, now))
      else w.table
  }

  function CreatorAfter(w: World, c: Creator, fate: Fate): Creator {
    var c' := c.(troubled := c.troubled || !fate.Fine?);
    var found := Find(w.table, c.key);
    match c.state
    case Lookup =>
      if !fate.Fine? then c'.(state := GivenUp)
      else if found.Some? then c'.(state := Returned(found.value))
      else c'.(state := Insert)
    case Insert =>
      if fate.Fine? && found.None? then c'.(state := Returned(|w.table|))
      else if c.key.Some? then c'.(state := Recheck)
      else c'.(state := GivenUp)
    case Recheck =>
      if fate.Fine? && found.Some? then c'.(state := Returned(found.value)) else c'.(state := GivenUp)
    case _ => c
  }

  function Next(w: World, a: Action): World
    requires Enabled(w, a)
  {
    match a
    case Arrive(key, maxAttempts) =>
      w.(creators := w.creators + [Creator(key, maxAttempts, if key.Some? then Lookup else Insert, false)])
    case Advance(c, fate, _) =>
      World(TableAfter(w, a), w.creators[c := CreatorAfter(w, w.creators[c], fate)])
    case Other(_) => w.(table := TableAfter(w, a))
  }

  ghost predicate IsRun(worlds: seq<World>, actions: seq<Action>) {
    && |worlds| == |actions| + 1
    && worlds[0] == START
    && forall i :: 0 <= i < |actions| ==> Enabled(worlds[i], actions[i]) && worlds[i + 1] == Next(worlds[i], actions[i])
  }

  predicate Sound(t: Table, c: Creator) {
    && (c.state.Returned? ==> c.state.id < |t| && t[c.state.id].key == c.key)
    && (c.state.Recheck? ==> c.key.Some? && (c.troubled || KeyTaken(t, c.key)))
    && (c.state.GivenUp? ==> c.troubled)
  }

  ghost predicate Consistent(w: World) {
    && (forall i, j :: 0 <= i < j < |w.table| && w.table[i].key.Some? ==> w.table[i].key != w.table[j].key)
    && (forall c :: 0 <= c < |w.creators| ==> Sound(w.table, w.creators[c]))
  }

  /** Rows are never removed and never change their key. */
  lemma KeysKept(t: Table, op: Op)
    ensures |t| <= |Apply(t, op)| && forall i :: 0 <= i < |t| ==> Apply(t, op)[i].key == t[i].key
  {
  }

  lemma SoundKept(t: Table, t': Table, c: Creator)
    requires Sound(t, c) && |t| <= |t'| && forall i :: 0 <= i < |t| ==> t'[i].key == t[i].key
    ensures Sound(t', c)
  {
    if KeyTaken(t, c.key) {
      var i :| 0 <= i < |t| && t[i].key == c.key;
      assert t'[i].key == c.key;
    }
  }

  lemma ConsistentStep(w: World, a: Action)
    requires Consistent(w) && Enabled(w, a)
    ensures Consistent(Next(w, a))
  {
    var w' := Next(w, a);
    if a.Other? { KeysKept(w.table, a.op); }
    if a.Advance? { KeysKept(w.table, Create(w.creators[a.creator].maxAttempts, w.creators[a.creator].key, a.now)); }
    forall i, j | 0 <= i < j < |w'.table| && w'.table[i].key.Some? ensures w'.table[i].key != w'.table[j].key {
      if j >= |w.table| {
        assert i < |w.table| && w.table[i].key == w'.table[i].key;
      }
    }
    forall c | 0 <= c < |w'.creators| ensures Sound(w'.table, w'.creators[c]) {
      if c < |w.creators| {
        SoundKept(w.table, w'.table, w.creators[c]);
        if a.Advance? && a.creator == c && w.creators[c].state.Insert? {
          if Find(w.table, w.creators[c].key).Some? {
            SoundKept(w.table, w'.table, w.creators[c].(state := Recheck, troubled := false));
          }
        }
      }
    }
  }

  lemma {:induction false} RunsAreConsistent(worlds: seq<World>, actions: seq<Action>, k: nat)
    requires IsRun(worlds, actions) && k < |worlds|
    ensures Consistent(worlds[k])
    decreases k
  {
    if k > 0 {
      RunsAreConsistent(worlds, actions, k - 1);
      ConsistentStep(worlds[k - 1], actions[k - 1]);
    }
  }

  /**
   For any number of racing creators: at most one task carries a key, all callers that return for that key return its
   id, and a caller fails only after one of its database calls reported an error.
   */
  lemma CreationIsIdempotent(worlds: seq<World>, actions: seq<Action>, k: nat)
    requires IsRun(worlds, actions) && k < |worlds|
    ensures forall i, j :: 0 <= i < j < |worlds[k].table| && worlds[k].table[i].key.Some? ==>
              worlds[k].table[i].key != worlds[k].table[j].key
    ensures forall c, d :: 0 <= c < |worlds[k].creators| && 0 <= d < |worlds[k].creators| &&
                           worlds[k].creators[c].state.Returned? && worlds[k].creators[d].state.Returned? &&
                           worlds[k].creators[c].key.Some? && worlds[k].creators[c].key == worlds[k].creators[d].key ==>
              worlds[k].creators[c].state.id == worlds[k].creators[d].state.id
    ensures forall c :: 0 <= c < |worlds[k].creators| && worlds[k].creators[c].state.Returned? ==>
              worlds[k].creators[c].state.id < |worlds[k].table|
              && worlds[k].table[worlds[k].creators[c].state.id].key == worlds[k].creators[c].key
    ensures forall c :: 0 <= c < |worlds[k].creators| && worlds[k].creators[c].state.GivenUp? ==>
              worlds[k].creators[c].troubled
  {
    RunsAreConsistent(worlds, actions, k);
    var w := worlds[k];
    forall c, d | 0 <= c < |w.creators| && 0 <= d < |w.creators| && w.creators[c].state.Returned? &&
                  w.creators[d].state.Returned? && w.creators[c].key.Some? && w.creators[c].key == w.creators[d].key
      ensures w.creators[c].state.id == w.creators[d].state.id
    {
      assert Sound(w.table, w.creators[c]) && Sound(w.table, w.creators[d]);
    }
  }

  /**
   What a creator's step does, when its database call works: a lookup that finds the key returns that task and inserts
   nothing; an insert of a free key adds the task as asked, waiting and unlocked, and returns it; one of a taken key
   adds nothing and goes on to the second lookup.
   */
  lemma CreatorStepShows(w: World, c: nat, now: Time)
    requires Enabled(w, Advance(c, Fine, now))
    ensures var w', me := Next(w, Advance(c, Fine, now)), w.creators[c];
            && (forall d :: 0 <= d < |w.creators| && d != c ==> w'.creators[d] == w.creators[d])
            && (!me.state.Insert? ==> w'.table == w.table)
            && ((me.state.Lookup? || me.state.Recheck?) && KeyTaken(w.table, me.key) ==>
                  var s := w'.creators[c].state;
                  s.Returned? && s.id < |w.table| && w.table[s.id].key == me.key)
            && (me.state.Insert? && !KeyTaken(w.table, me.key) ==>
                  && w'.creators[c].state == Returned(|w.table|)
                  && w'.table == w.table + [Task(Pending, 0, None, None, 0,
                                                 if me.maxAttempts <= 0 then 1 else me.maxAttempts,
                                                 me.key, None, now, None, None)])
            && (me.state.Insert? && KeyTaken(w.table, me.key) ==>
                  w'.table == w.table && w'.creators[c].state == Recheck)
  {
  }
}
