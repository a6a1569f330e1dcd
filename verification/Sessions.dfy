/**
 The in-process session store, after `Session` in `python/csilk/context.py`.

 One table holds the sessions of all requests. Every operation first removes, from the whole table, the
 sessions that have expired. A set or a get then gives its own session another day; the other
 operations do not. An operation reads the clock twice: once to prune and once to set the expiry.
 */
module Sessions {
  import opened Wrappers

  type Id = string

  type Key = string

  const TTL := 86400.0

  datatype Session<V> = Session(data: map<Key, V>, expires: real)

  type Table<V> = map<Id, Session<V>>

  datatype Op<V> =
    | Set(key: Key, value: V)
    | Get(key: Key)
    | Delete(key: Key)
    | Contains(key: Key)
    | Pop(key: Key)
    | Clear
    | Destroy

  /** An operation on the request's session, if it has one, and the two times it reads. */
  datatype Event<V> = Event(id: Option<Id>, prune: real, touch: real, op: Op<V>)

  //////////////////////////////////////////////////////////////////////////////
  // The store
  //////////////////////////////////////////////////////////////////////////////

  function Pruned<V>(t: Table<V>, now: real): Table<V> {
    map id | id in t && t[id].expires >= now :: t[id]
  }

  function Find<V>(t: Table<V>, id: Id): Option<Session<V>> {
    if id in t then Some(t[id]) else None
  }

  /** What an operation makes of its own session. */
  function Operate<V>(s: Option<Session<V>>, touch: real, op: Op<V>): Option<Session<V>> {
    match op
    case Set(key, value) => Some(Session((if s.Some? then s.value.data else map[])[key := value], touch + TTL))
    case Destroy => None
    case Get(_) => if s.None? then None else Some(s.value.(expires := touch + TTL))
    case Contains(_) => s
    case Delete(key) => if s.None? then None else Some(s.value.(data := s.value.data - {key}))
    case Pop(key) => if s.None? then None else Some(s.value.(data := s.value.data - {key}))
    case Clear => if s.None? then None else Some(s.value.(data := map[]))
  }

  function Stored<V>(t: Table<V>, id: Id, s: Option<Session<V>>): Table<V> {
    if s.Some? then t[id := s.value] else t - {id}
  }

  /** Destroying a session is the one operation that does not prune. */
  function Step<V>(t: Table<V>, e: Event<V>): Table<V> {
    var t' := if e.op.Destroy? then t else Pruned(t, e.prune);
    if e.id.None? then t' else Stored(t', e.id.value, Operate(Find(t', e.id.value), e.touch, e.op))
  }

  function Run<V>(events: seq<Event<V>>): Table<V> {
    if events == [] then map[] else Step(Run(events[..|events| - 1]), events[|events| - 1])
  }

  /** What a get at time `now` finds. */
  function Read<V>(t: Table<V>, id: Id, key: Key, now: real): Option<V> {
    var s := Find(Pruned(t, now), id);
    if s.Some? && key in s.value.data then Some(s.value.data[key]) else None
  }

  /** The clock does not run backwards, up to `now`. */
  ghost predicate Clocked<V>(events: seq<Event<V>>, now: real) {
    && (forall i :: 0 <= i < |events| ==> events[i].prune <= events[i].touch <= now)
    && (forall i, j :: 0 <= i < j < |events| ==> events[i].touch <= events[j].prune)
  }

  //////////////////////////////////////////////////////////////////////////////
  // Sessions do not disturb each other
  //////////////////////////////////////////////////////////////////////////////

  /** A session's own history, pruned by its own operations only. */
  function Own<V>(events: seq<Event<V>>, id: Id): Option<Session<V>> {
    if events == [] then None
    else
      var before, e := Own(events[..|events| - 1], id), events[|events| - 1];
      if e.id == Some(id) then Operate(if e.op.Destroy? then before else Live(before, e.prune), e.touch, e.op)
      else before
  }

  function Live<V>(s: Option<Session<V>>, now: real): Option<Session<V>> {
    if s.Some? && s.value.expires >= now then s else None
  }

  lemma FindPruned<V>(t: Table<V>, id: Id, now: real)
    ensures Find(Pruned(t, now), id) == Live(Find(t, id), now)
  {
  }

  /** One operation, seen from any session. */
  lemma StepFind<V>(t: Table<V>, e: Event<V>, id: Id, now: real)
    requires e.prune <= now
    ensures e.id != Some(id) ==> Live(Find(Step(t, e), id), now) == Live(Find(t, id), now)
    ensures e.id == Some(id) ==> Find(Step(t, e), id) == Operate(Live(Find(t, id), e.prune), e.touch, e.op)
  {
    hide Pruned;
    FindPruned(t, id, e.prune);
  }

  /** What the other sessions do, and when, never shows. */
  lemma {:induction false} SessionsAreIndependent<V>(events: seq<Event<V>>, id: Id, now: real)
    requires Clocked(events, now)
    ensures Find(Pruned(Run(events), now), id) == Live(Own(events, id), now)
  {
    if events != [] {
      var before, e := events[..|events| - 1], events[|events| - 1];
      hide Pruned, Find, Live, Step;
      SessionsAreIndependent(before, id, now);
      SessionsAreIndependent(before, id, e.prune);
      FindPruned(Run(before), id, now);
      FindPruned(Run(before), id, e.prune);
      FindPruned(Run(events), id, now);
      StepFind(Run(before), e, id, now);
    } else {
      assert Run(events) == map[];
    }
  }

  //////////////////////////////////////////////////////////////////////////////
  // What a read returns
  //////////////////////////////////////////////////////////////////////////////

  predicate Touches<V>(e: Event<V>, id: Id) {
    e.id == Some(id) && (e.op.Set? || e.op.Get?)
  }

  /** The event overwrites or removes the value. */
  predicate Replaces<V>(e: Event<V>, id: Id, key: Key) {
    e.id == Some(id) && match e.op
                        case Set(k, _) => k == key
                        case Delete(k) => k == key
                        case Pop(k) => k == key
                        case Clear => true
                        case Destroy => true
                        case Get(_) => false
                        case Contains(_) => false
  }

  ghost predicate LastSet<V>(events: seq<Event<V>>, i: nat, id: Id, key: Key, value: V) {
    && i < |events| && events[i].id == Some(id) && events[i].op == Set(key, value)
    && forall j :: i < j < |events| ==> !Replaces(events[j], id, key)
  }

  /** The time of the last set or get, from event `i` on. */
  function LastTouch<V>(events: seq<Event<V>>, i: nat, id: Id): real
    requires i < |events|
  {
    if |events| == i + 1 || Touches(events[|events| - 1], id) then events[|events| - 1].touch
    else LastTouch(events[..|events| - 1], i, id)
  }

  /** No gap between successive touches from event `i` on is longer than a day. */
  ghost predicate Unbroken<V>(events: seq<Event<V>>, i: nat, id: Id)
    requires i < |events|
  {
    forall j :: i < j < |events| && Touches(events[j], id) ==>
      events[j].prune <= LastTouch(events[..j], i, id) + 86400.0
  }

  ghost predicate Kept<V>(events: seq<Event<V>>, i: nat, id: Id, key: Key, value: V, now: real) {
    LastSet(events, i, id, key, value) && Unbroken(events, i, id) && now <= LastTouch(events, i, id) + 86400.0
  }

  /** A value that was set and kept is there. */
  lemma {:induction false} KeptIsFound<V>(events: seq<Event<V>>, i: nat, id: Id, key: Key, value: V, now: real)
    requires Clocked(events, now) && Kept(events, i, id, key, value, now)
    ensures var s := Own(events, id);
            && s.Some? && s.value.expires == LastTouch(events, i, id) + TTL
            && key in s.value.data && s.value.data[key] == value
  {
    var before, e := events[..|events| - 1], events[|events| - 1];
    if i < |before| {
      hide Unbroken, LastSet, Kept;
      var earlier := if e.id == Some(id) then e.prune else now;
      KeptBefore(events, i, id, key, value, now);
      KeptIsFound(before, i, id, key, value, earlier);
      LastTouchStep(events, i, id);
    } else {
      assert LastTouch(events, i, id) == e.touch;
    }
  }

  lemma LastTouchStep<V>(events: seq<Event<V>>, i: nat, id: Id)
    requires i < |events| - 1
    ensures var before, e := events[..|events| - 1], events[|events| - 1];
            LastTouch(events, i, id) == if Touches(e, id) then e.touch else LastTouch(before, i, id)
  {
  }

  lemma KeptBefore<V>(events: seq<Event<V>>, i: nat, id: Id, key: Key, value: V, now: real)
    requires i < |events| - 1 && Clocked(events, now) && Kept(events, i, id, key, value, now)
    ensures var before, e := events[..|events| - 1], events[|events| - 1];
            && Kept(before, i, id, key, value, if e.id == Some(id) then e.prune else now)
            && !Replaces(e, id, key)
  {
    var before, e := events[..|events| - 1], events[|events| - 1];
    assert forall j :: 0 <= j < |before| ==> events[..j] == before[..j];
    LastTouchStep(events, i, id);
  }

  lemma UnbrokenStep<V>(events: seq<Event<V>>, i: nat, id: Id)
    requires i < |events| - 1 && Unbroken(events[..|events| - 1], i, id)
    requires var before, e := events[..|events| - 1], events[|events| - 1];
             Touches(e, id) ==> e.prune <= LastTouch(before, i, id) + TTL
    ensures Unbroken(events, i, id)
  {
    var before := events[..|events| - 1];
    assert forall j :: 0 <= j < |before| ==> events[..j] == before[..j];
  }

  /** The value under a key was set by event `i`, and the session expires a day after its last touch since then. */
  ghost predicate SetBy<V>(events: seq<Event<V>>, i: nat, id: Id, key: Key, s: Session<V>)
    requires key in s.data
  {
    && LastSet(events, i, id, key, s.data[key]) && Unbroken(events, i, id)
    && s.expires == LastTouch(events, i, id) + 86400.0
  }

  /** A value that is there was set and kept. */
  lemma {:induction false} FoundWasKept<V>(events: seq<Event<V>>, id: Id, key: Key, now: real)
    requires Clocked(events, now) && Own(events, id).Some? && key in Own(events, id).value.data
    ensures exists i :: SetBy(events, i, id, key, Own(events, id).value)
  {
    var before, e := events[..|events| - 1], events[|events| - 1];
    if e.id == Some(id) && e.op.Set? && e.op.key == key {
      assert SetBy(events, |before|, id, key, Own(events, id).value);
    } else {
      hide SetBy;
      WasThere(events, id, key);
      FoundWasKept(before, id, key, now);
      var i :| SetBy(before, i, id, key, Own(before, id).value);
      SetByStep(events, i, id, key, now);
    }
  }

  lemma WasThere<V>(events: seq<Event<V>>, id: Id, key: Key)
    requires Own(events, id).Some? && key in Own(events, id).value.data
    ensures events != []
    ensures var before, e := Own(events[..|events| - 1], id), events[|events| - 1];
            !(e.id == Some(id) && e.op.Set? && e.op.key == key) ==> before.Some? && key in before.value.data
  {
  }

  lemma SetByStep<V>(events: seq<Event<V>>, i: nat, id: Id, key: Key, now: real)
    requires Clocked(events, now) && Own(events, id).Some? && key in Own(events, id).value.data
    requires events != [] && var before, e := events[..|events| - 1], events[|events| - 1];
                             && !(e.id == Some(id) && e.op.Set? && e.op.key == key)
                             && Own(before, id).Some? && key in Own(before, id).value.data
                             && SetBy(before, i, id, key, Own(before, id).value)
    ensures SetBy(events, i, id, key, Own(events, id).value)
  {
    hide Unbroken;
    UnbrokenStep(events, i, id);
    LastTouchStep(events, i, id);
  }

  /**
   A read returns a value if and only if that value was the last one set, nothing removed it, and no
   gap between successive touches, up to the read, is longer than a day.
   */
  lemma ReadIsLastSet<V>(events: seq<Event<V>>, id: Id, key: Key, value: V, now: real)
    requires Clocked(events, now)
    ensures Read(Run(events), id, key, now) == Some(value) <==> exists i :: Kept(events, i, id, key, value, now)
  {
    SessionsAreIndependent(events, id, now);
    if Read(Run(events), id, key, now) == Some(value) {
      FoundWasKept(events, id, key, now);
      var i :| SetBy(events, i, id, key, Own(events, id).value);
      assert Kept(events, i, id, key, value, now);
    }
    if i :| Kept(events, i, id, key, value, now) {
      KeptIsFound(events, i, id, key, value, now);
    }
  }

  //////////////////////////////////////////////////////////////////////////////
  // The procedures
  //////////////////////////////////////////////////////////////////////////////

  /** The table of all sessions; `id` is the identifier of the request's own session, if it has one. */
  class Store<V> {
    var sessions: Table<V>

    /** `_prune`. */
    method Prune(now: real)
      modifies this
      ensures sessions == Pruned(old(sessions), now)
    {
      var ids := sessions.Keys;
      while ids != {}
        invariant ids <= sessions.Keys <= old(sessions).Keys
        invariant forall id :: id in sessions ==> sessions[id] == old(sessions)[id]
        invariant forall id :: id in old(sessions) && old(sessions)[id].expires >= now ==> id in sessions
        invariant forall id :: id in sessions && id !in ids ==> sessions[id].expires >= now
        decreases ids
      {
        var id :| id in ids;
        ids := ids - {id};
        if sessions[id].expires < now {
          sessions := sessions - {id};
        }
      }
    }

    /** `__getitem__`. */
    method GetItem(id: Option<Id>, key: Key, prune: real, touch: real) returns (r: Option<V>)
      modifies this
      ensures sessions == Step(old(sessions), Event(id, prune, touch, Get(key)))
      ensures r == if id.Some? then Read(old(sessions), id.value, key, prune) else None
    {
      Prune(prune);
      if id.None? || id.value !in sessions {
        return None;
      }
      var s := sessions[id.value];
      sessions := sessions[id.value := s.(expires := touch + TTL)];
      return if key in s.data then Some(s.data[key]) else None;
    }

    /** `__setitem__`; the error is that no session was started. */
    method SetItem(id: Option<Id>, key: Key, value: V, prune: real, touch: real) returns (ok: bool)
      modifies this
      ensures sessions == Step(old(sessions), Event(id, prune, touch, Set(key, value)))
      ensures ok == id.Some?
    {
      Prune(prune);
      if id.None? {
        return false;
      }
      if id.value !in sessions {
        sessions := sessions[id.value := Session(map[], 0.0)];
      }
      var s := sessions[id.value];
      sessions := sessions[id.value := Session(s.data[key := value], touch + TTL)];
      return true;
    }

    /** `__contains__`. */
    method ContainsItem(id: Option<Id>, key: Key, prune: real, ghost touch: real) returns (r: bool)
      modifies this
      ensures sessions == Step(old(sessions), Event(id, prune, touch, Contains(key)))
      ensures r == (id.Some? && Read(old(sessions), id.value, key, prune).Some?)
    {
      Prune(prune);
      return id.Some? && id.value in sessions && key in sessions[id.value].data;
    }

    /** `__delitem__`. */
    method DelItem(id: Option<Id>, key: Key, prune: real, ghost touch: real)
      modifies this
      ensures sessions == Step(old(sessions), Event(id, prune, touch, Delete(key)))
    {
      Prune(prune);
      if id.Some? && id.value in sessions {
        var s := sessions[id.value];
        sessions := sessions[id.value := s.(data := s.data - {key})];
      }
    }

    /** `pop`. */
    method PopItem(id: Option<Id>, key: Key, default: V, prune: real, ghost touch: real) returns (v: V)
      modifies this
      ensures sessions == Step(old(sessions), Event(id, prune, touch, Pop(key)))
      ensures v == var r := if id.Some? then Read(old(sessions), id.value, key, prune) else None;
                   if r.Some? then r.value else default
    {
      Prune(prune);
      if id.None? || id.value !in sessions {
        return default;
      }
      var s := sessions[id.value];
      v := if key in s.data then s.data[key] else default;
      sessions := sessions[id.value := s.(data := s.data - {key})];
    }

    /** `clear`. */
    method ClearAll(id: Option<Id>, prune: real, ghost touch: real)
      modifies this
      ensures sessions == Step(old(sessions), Event(id, prune, touch, Clear))
    {
      Prune(prune);
      if id.Some? && id.value in sessions {
        sessions := sessions[id.value := sessions[id.value].(data := map[])];
      }
    }

    /** `session_destroy`. */
    method DestroySession(id: Option<Id>, ghost prune: real, ghost touch: real)
      modifies this
      ensures sessions == Step(old(sessions), Event(id, prune, touch, Destroy))
    {
      if id.Some? {
        sessions := sessions - {id.value};
      }
    }
  }
}
