/**
 The response cache of `examples/middleware/example_observability.c`.

 The cache has 64 slots. A look-up turns off the expired slots of its key that it passes; a store takes
 the first slot that is off or else the one that expires first. Keys and values are cut to the size of
 the slot's buffers.
 */
module TtlCache {
  import opened Wrappers
  import opened Sequences

  const SLOTS := 64

  const TTL := 60

  const KEY_MAX := 127

  const VALUE_MAX := 4095

  datatype Slot = Slot(key: string, value: string, expires: int, active: bool)

  //////////////////////////////////////////////////////////////////////////////
  // Look-up
  //////////////////////////////////////////////////////////////////////////////

  datatype Found = Found(slots: seq<Slot>, value: Option<string>)

  /** `cache_lookup`, from slot `i` on. */
  function Lookup(slots: seq<Slot>, key: string, now: int, i: nat): Found
    requires i <= |slots|
    decreases |slots| - i
  {
    if i == |slots| then Found(slots, None)
    else if !slots[i].active || slots[i].key != key then Lookup(slots, key, now, i + 1)
    else if now > slots[i].expires then Lookup(slots[i := slots[i].(active := false)], key, now, i + 1)
    else Found(slots, Some(slots[i].value))
  }

  /** A look-up only turns off expired slots of its key. */
  ghost predicate Expired(before: Slot, after: Slot, key: string, now: int) {
    after == before || (before.active && before.key == key && before.expires < now && after == before.(active := false))
  }

  lemma {:induction false} LookupFinds(slots: seq<Slot>, key: string, now: int, i: nat)
    requires i <= |slots|
    ensures var r := Lookup(slots, key, now, i);
            && |r.slots| == |slots|
            && (forall s :: 0 <= s < i ==> r.slots[s] == slots[s])
            && (forall s :: i <= s < |slots| ==> Expired(slots[s], r.slots[s], key, now))
            && (r.value.Some? ==> exists s :: i <= s < |slots| && slots[s].active && slots[s].key == key
                                              && now <= slots[s].expires && r.value.value == slots[s].value)
            && (r.value.None? ==> forall s :: i <= s < |slots| ==> !(r.slots[s].active && r.slots[s].key == key))
    decreases |slots| - i
  {
    if i < |slots| {
      if !slots[i].active || slots[i].key != key {
        LookupFinds(slots, key, now, i + 1);
      } else if now > slots[i].expires {
        LookupFinds(slots[i := slots[i].(active := false)], key, now, i + 1);
      }
    }
  }

  //////////////////////////////////////////////////////////////////////////////
  // Store
  //////////////////////////////////////////////////////////////////////////////

  /** The slot a store takes: the first that is off, or else the first of those that expire soonest. */
  ghost predicate Victim(slots: seq<Slot>, v: nat) {
    && v < |slots|
    && (if slots[v].active
        then && (forall s :: 0 <= s < |slots| ==> slots[s].active && slots[v].expires <= slots[s].expires)
             && (forall s :: 0 <= s < v ==> slots[v].expires < slots[s].expires)
        else forall s :: 0 <= s < v ==> slots[s].active)
  }

  function FirstOff(slots: seq<Slot>, i: nat): (v: nat)
    requires i <= |slots|
    ensures i <= v <= |slots|
    ensures v < |slots| ==> !slots[v].active
    ensures forall s :: i <= s < v ==> slots[s].active
    decreases |slots| - i
  {
    if i == |slots| || !slots[i].active then i else FirstOff(slots, i + 1)
  }

  function FirstToExpire(slots: seq<Slot>, n: nat): (v: nat)
    requires 0 < n <= |slots|
    ensures v < n && forall s :: 0 <= s < n ==> slots[v].expires <= slots[s].expires
    ensures forall s :: 0 <= s < v ==> slots[v].expires < slots[s].expires
  {
    if n == 1 then 0
    else
      var v := FirstToExpire(slots, n - 1);
      if slots[n - 1].expires < slots[v].expires then n - 1 else v
  }

  function Choose(slots: seq<Slot>): (v: nat)
    requires slots != []
    ensures Victim(slots, v)
  {
    var off := FirstOff(slots, 0);
    if off < |slots| then off else FirstToExpire(slots, |slots|)
  }

  /** An entry that has not expired is given up only when every slot holds one that has not. */
  lemma EvictsUnexpiredOnlyWhenAllAre(slots: seq<Slot>, now: int)
    requires slots != [] && slots[Choose(slots)].active && slots[Choose(slots)].expires >= now
    ensures forall s :: 0 <= s < |slots| ==> slots[s].active && slots[s].expires >= now
  {
  }

  function Entry(key: string, value: string, now: int): Slot {
    Slot(AtMost(key, KEY_MAX), AtMost(value, VALUE_MAX), now + TTL, true)
  }

  /** `cache_store`. */
  function Put(slots: seq<Slot>, key: string, value: string, now: int): seq<Slot>
    requires slots != []
  {
    slots[Choose(slots) := Entry(key, value, now)]
  }

  //////////////////////////////////////////////////////////////////////////////
  // Runs of the middleware
  //////////////////////////////////////////////////////////////////////////////

  /**
   A request that does not bypass the cache: the times of its look-up and of its store, its own body, and
   the status its handlers leave. `csilk_get_body` returns the body of the request and not of the
   response.
   */
  datatype Request = Request(path: string, now: int, later: int, body: Option<string>, status: int)

  datatype Cache = Cache(slots: seq<Slot>, hits: nat, misses: nat)

  /** Static storage. */
  function Empty(): Cache {
    Cache(seq(SLOTS, _ => Slot("", "", 0, false)), 0, 0)
  }

  predicate HasBody(q: Request) {
    q.body.Some? && q.body.value != ""
  }

  /** What is stored is the body of a request that missed and was answered with 200. */
  predicate Stores(c: Cache, q: Request) {
    Lookup(c.slots, q.path, q.now, 0).value.None? && q.status == 200 && HasBody(q)
  }

  function Serve(c: Cache, q: Request): Cache {
    var r := Lookup(c.slots, q.path, q.now, 0);
    if r.value.Some? then Cache(r.slots, c.hits + 1, c.misses)
    else Cache(if Stores(c, q) && r.slots != [] then Put(r.slots, q.path, q.body.value, q.later)
               else r.slots, c.hits, c.misses + 1)
  }

  function Run(requests: seq<Request>): Cache {
    if requests == [] then Empty() else Serve(Run(requests[..|requests| - 1]), requests[|requests| - 1])
  }

  datatype Record = Record(key: string, value: string, time: int)

  /** What has been stored, in order. */
  function History(requests: seq<Request>): seq<Record> {
    if requests == [] then []
    else
      var before, q := requests[..|requests| - 1], requests[|requests| - 1];
      History(before) + if Stores(Run(before), q) then [Record(q.path, q.body.value, q.later)] else []
  }

  lemma {:induction false} EveryLookupCounts(requests: seq<Request>)
    ensures Run(requests).hits + Run(requests).misses == |requests|
  {
    if requests != [] {
      EveryLookupCounts(requests[..|requests| - 1]);
    }
  }

  //////////////////////////////////////////////////////////////////////////////
  // What the slots hold
  //////////////////////////////////////////////////////////////////////////////

  ghost predicate Latest(records: seq<Record>, j: nat) {
    j < |records| && forall i :: j < i < |records| ==> records[i].key != records[j].key
  }

  /** The other stores no older than store `j`. */
  ghost function Rivals(records: seq<Record>, j: nat): set<nat>
    requires j < |records|
  {
    set i: nat | i < |records| && i != j && records[i].time >= records[j].time
  }

  /** Enough of them to fill the cache. */
  ghost predicate Crowded(records: seq<Record>, j: nat)
    requires j < |records|
  {
    |Rivals(records, j)| >= 64
  }

  ghost predicate Holds(slot: Slot, records: seq<Record>, j: nat) {
    && Latest(records, j)
    && slot.key == records[j].key && slot.value == AtMost(records[j].value, VALUE_MAX)
    && slot.expires == records[j].time + TTL
  }

  ghost predicate Present(slots: seq<Slot>, origin: seq<nat>, j: nat) {
    exists s :: 0 <= s < |slots| && |slots| == |origin| && slots[s].active && origin[s] == j
  }

  ghost predicate Gone(records: seq<Record>, j: nat, now: int)
    requires j < |records|
  {
    records[j].time + TTL < now || Crowded(records, j)
  }

  /**
   `origin` says which store each active slot comes from: the latest one for its key. The latest store
   for a key is in a slot unless it has expired or enough others are no older.
   */
  ghost predicate Tracks(slots: seq<Slot>, origin: seq<nat>, records: seq<Record>, now: int) {
    && |slots| == |origin| == SLOTS
    && (forall s :: 0 <= s < SLOTS && slots[s].active ==> Holds(slots[s], records, origin[s]))
    && (forall s, u :: 0 <= s < u < SLOTS && slots[s].active && slots[u].active ==> origin[s] != origin[u])
    && (forall j: nat | j < |records| && Latest(records, j) :: Present(slots, origin, j) || Gone(records, j, now))
    && (forall i :: 0 <= i < |records| ==> records[i].time <= now)
  }

  lemma LookupTracks(slots: seq<Slot>, origin: seq<nat>, records: seq<Record>, clock: int, key: string, now: int)
    requires Tracks(slots, origin, records, clock) && clock <= now
    ensures Tracks(Lookup(slots, key, now, 0).slots, origin, records, now)
  {
    hide Lookup, Latest, Crowded;
    var slots' := Lookup(slots, key, now, 0).slots;
    LookupFinds(slots, key, now, 0);
    forall j: nat | j < |records| && Latest(records, j) ensures Present(slots', origin, j) || Gone(records, j, now) {
      if s :| 0 <= s < |slots| && slots[s].active && origin[s] == j {
        assert Expired(slots[s], slots'[s], key, now);
      }
    }
  }

  lemma LatestBefore(records: seq<Record>, r: Record, j: nat)
    requires j < |records|
    ensures Latest(records + [r], j) <==> Latest(records, j) && records[j].key != r.key
  {
    if Latest(records + [r], j) {
      assert (records + [r])[|records|] == r;
      assert forall i :: j < i < |records| ==> records[i] == (records + [r])[i];
    }
  }

  lemma GoneStays(records: seq<Record>, r: Record, j: nat, now: int, later: int)
    requires j < |records| && Gone(records, j, now) && now <= later
    ensures Gone(records + [r], j, later)
  {
    assert Rivals(records, j) <= Rivals(records + [r], j);
    Fewer(Rivals(records, j), Rivals(records + [r], j));
  }

  /** An unexpired entry is evicted only when every slot holds an entry no older. */
  lemma EvictedIsGone(slots: seq<Slot>, origin: seq<nat>, records: seq<Record>, now: int, v: nat, r: Record)
    requires Tracks(slots, origin, records, now) && Victim(slots, v) && slots[v].active && now <= r.time
    ensures origin[v] < |records| && Gone(records + [r], origin[v], r.time)
  {
    hide Latest, Rivals;
    var j, n := origin[v], |records|;
    assert Holds(slots[v], records, j) && j < n by { LatestBound(records, j); }
    if records[j].time + TTL >= r.time {
      var all := Elements(origin);
      forall x | x in all ensures x < n && records[x].time >= records[j].time {
        var s :| 0 <= s < SLOTS && origin[s] == x;
        assert Holds(slots[s], records, x);
        LatestBound(records, x);
      }
      CountElements(origin);
      AllRivals(records, r, j, all);
    }
  }

  lemma LatestBound(records: seq<Record>, j: nat)
    requires Latest(records, j)
    ensures j < |records|
  {
  }

  lemma AllRivals(records: seq<Record>, r: Record, j: nat, all: set<nat>)
    requires j in all && |all| == SLOTS && j < |records| && records[j].time <= r.time
    requires forall x :: x in all ==> x < |records| && records[x].time >= records[j].time
    ensures Crowded(records + [r], j)
  {
    var n := |records|;
    assert n !in all;
    var rivals := all - {j} + {n};
    assert |all - {j}| == SLOTS - 1;
    assert |rivals| == SLOTS;
    assert rivals <= Rivals(records + [r], j);
    Fewer(rivals, Rivals(records + [r], j));
  }

  lemma StoreTracks(slots: seq<Slot>, origin: seq<nat>, records: seq<Record>, now: int, r: Record)
    requires Tracks(slots, origin, records, now) && now <= r.time && |r.key| <= KEY_MAX
    requires forall s :: 0 <= s < |slots| ==> !(slots[s].active && slots[s].key == r.key)
    ensures var v := Choose(slots);
            Tracks(Put(slots, r.key, r.value, r.time), origin[v := |records|], records + [r], r.time)
  {
    hide Latest, Crowded, Rivals, AtMost, Gone;
    var v, n := Choose(slots), |records|;
    var slots', origin', records' := slots[v := Entry(r.key, r.value, r.time)], origin[v := n], records + [r];
    NewestHolds(records, r);
    forall s | 0 <= s < SLOTS && slots'[s].active ensures Holds(slots'[s], records', origin'[s]) {
      if s != v {
        LatestBound(records, origin[s]);
        LatestBefore(records, r, origin[s]);
      }
    }
    forall s | 0 <= s < SLOTS && slots[s].active ensures origin[s] < n {
      LatestBound(records, origin[s]);
    }
    forall j: nat | j < |records'| && Latest(records', j)
      ensures Present(slots', origin', j) || Gone(records', j, r.time)
    {
      StillTracked(slots, origin, records, now, r, j);
    }
  }

  lemma NewestHolds(records: seq<Record>, r: Record)
    requires |r.key| <= KEY_MAX
    ensures Holds(Entry(r.key, r.value, r.time), records + [r], |records|)
  {
  }

  lemma StillTracked(slots: seq<Slot>, origin: seq<nat>, records: seq<Record>, now: int, r: Record, j: nat)
    requires Tracks(slots, origin, records, now) && now <= r.time && Latest(records + [r], j)
    ensures var v := Choose(slots);
            Present(slots[v := Entry(r.key, r.value, r.time)], origin[v := |records|], j)
            || (j < |records + [r]| && Gone(records + [r], j, r.time))
  {
    hide Latest, Crowded, Rivals, AtMost, Gone;
    var v, n := Choose(slots), |records|;
    var slots', origin' := slots[v := Entry(r.key, r.value, r.time)], origin[v := n];
    LatestBound(records + [r], j);
    if j == n {
      assert slots'[v].active && origin'[v] == j;
    } else {
      LatestBefore(records, r, j);
      if s :| 0 <= s < |slots| && slots[s].active && origin[s] == j {
        if s == v {
          EvictedIsGone(slots, origin, records, now, v, r);
        } else {
          assert slots'[s].active && origin'[s] == j;
        }
      } else {
        GoneStays(records, r, j, now, r.time);
      }
    }
  }

  //////////////////////////////////////////////////////////////////////////////
  // What every run keeps
  //////////////////////////////////////////////////////////////////////////////

  /** The clock does not run backwards, up to `now`. */
  ghost predicate Clocked(requests: seq<Request>, now: int) {
    && (forall i :: 0 <= i < |requests| ==> requests[i].now <= requests[i].later <= now)
    && (forall i, j :: 0 <= i < j < |requests| ==> requests[i].later <= requests[j].now)
  }

  ghost predicate ShortKeys(requests: seq<Request>) {
    forall i :: 0 <= i < |requests| ==> |requests[i].path| <= 127
  }

  lemma EmptyTracks(now: int)
    ensures Tracks(Empty().slots, seq(SLOTS, _ => 0), [], now)
  {
  }

  lemma TracksLater(slots: seq<Slot>, origin: seq<nat>, records: seq<Record>, now: int, later: int)
    requires Tracks(slots, origin, records, now) && now <= later
    ensures Tracks(slots, origin, records, later)
  {
    hide Present, Holds, Latest;
  }

  lemma ServeTracks(c: Cache, q: Request, origin: seq<nat>, records: seq<Record>) returns (origin': seq<nat>)
    requires Tracks(c.slots, origin, records, q.now) && q.now <= q.later && |q.path| <= KEY_MAX
    ensures Tracks(Serve(c, q).slots, origin',
                   records + (if Stores(c, q) then [Record(q.path, q.body.value, q.later)] else []), q.later)
  {
    hide Lookup, Choose, Holds, Latest, Present, Gone, Entry;
    var slots := Lookup(c.slots, q.path, q.now, 0).slots;
    LookupFinds(c.slots, q.path, q.now, 0);
    LookupTracks(c.slots, origin, records, q.now, q.path, q.now);
    if Stores(c, q) {
      StoreTracks(slots, origin, records, q.now, Record(q.path, q.body.value, q.later));
      origin' := origin[Choose(slots) := |records|];
    } else {
      TracksLater(slots, origin, records, q.now, q.later);
      assert records + [] == records;
      origin' := origin;
    }
  }

  lemma {:induction false} RunTracks(requests: seq<Request>, now: int) returns (origin: seq<nat>)
    requires Clocked(requests, now) && ShortKeys(requests)
    ensures Tracks(Run(requests).slots, origin, History(requests), now)
  {
    hide Tracks, Serve, Empty, Stores;
    if requests == [] {
      EmptyTracks(now);
      origin := seq(SLOTS, _ => 0);
    } else {
      var before, q := requests[..|requests| - 1], requests[|requests| - 1];
      origin := RunTracks(before, q.now);
      origin := ServeTracks(Run(before), q, origin, History(before));
      TracksLater(Run(requests).slots, origin, History(requests), q.later, now);
    }
  }

  /** At most one slot is active for a key. */
  lemma OneSlotPerKey(requests: seq<Request>, now: int, s: nat, u: nat)
    requires Clocked(requests, now) && ShortKeys(requests)
    ensures var slots := Run(requests).slots;
            && |slots| == 64
            && (s < 64 && u < 64 && slots[s].active && slots[u].active && slots[s].key == slots[u].key ==> s == u)
  {
    hide Run;
    var origin := RunTracks(requests, now);
  }

  /** A hit returns the latest value stored for the key, cut to the buffer, and that one has not expired. */
  lemma HitIsLatest(requests: seq<Request>, key: string, now: int)
    requires Clocked(requests, now) && ShortKeys(requests)
    requires Lookup(Run(requests).slots, key, now, 0).value.Some?
    ensures var records := History(requests);
            exists j :: 0 <= j < |records| && Latest(records, j) && records[j].key == key
                        && now <= records[j].time + 60
                        && Lookup(Run(requests).slots, key, now, 0).value.value == AtMost(records[j].value, 4095)
  {
    hide Run, History, Lookup, Latest;
    var records, slots := History(requests), Run(requests).slots;
    var origin := RunTracks(requests, now);
    LookupFinds(slots, key, now, 0);
    var s :| 0 <= s < |slots| && slots[s].active && slots[s].key == key
             && now <= slots[s].expires && Lookup(slots, key, now, 0).value.value == slots[s].value;
    LatestBound(records, origin[s]);
    assert Holds(slots[s], records, origin[s]);
  }

  /** The latest value stored for a key is found until it expires, unless enough others are no older. */
  lemma LatestIsHit(requests: seq<Request>, key: string, now: int, j: nat)
    requires Clocked(requests, now) && ShortKeys(requests)
    requires j < |History(requests)| && Latest(History(requests), j) && History(requests)[j].key == key
    requires now <= History(requests)[j].time + 60 && !Crowded(History(requests), j)
    ensures Lookup(Run(requests).slots, key, now, 0).value == Some(AtMost(History(requests)[j].value, 4095))
  {
    hide Run, History, Lookup, Crowded;
    var records, slots := History(requests), Run(requests).slots;
    var origin := RunTracks(requests, now);
    var s :| 0 <= s < |slots| && slots[s].active && origin[s] == j;
    LookupFinds(slots, key, now, 0);
    var r := Lookup(slots, key, now, 0);
    assert Holds(slots[s], records, j);
    assert Expired(slots[s], r.slots[s], key, now);
    HitIsLatest(requests, key, now);
  }

  //////////////////////////////////////////////////////////////////////////////
  // One request
  //////////////////////////////////////////////////////////////////////////////

  /**
   A request that misses, is answered with 200 and has a body is answered by a hit for the next 60
   seconds and not after that; without one of the three nothing is stored.
   */
  lemma ServedThenHit(c: Cache, q: Request, now: int)
    requires |c.slots| == 64 && |q.path| <= 127 && q.now <= q.later <= now
    requires Lookup(c.slots, q.path, q.now, 0).value == None
    ensures q.status == 200 && q.body.Some? && q.body.value != "" ==>
              Lookup(Serve(c, q).slots, q.path, now, 0).value
              == if now <= q.later + 60 then Some(AtMost(q.body.value, 4095)) else None
    ensures !(q.status == 200 && q.body.Some? && q.body.value != "") ==>
              Lookup(Serve(c, q).slots, q.path, now, 0).value == None
  {
    hide Lookup, Choose;
    LookupFinds(c.slots, q.path, q.now, 0);
    var slots := Serve(c, q).slots;
    LookupFinds(slots, q.path, now, 0);
    var r := Lookup(slots, q.path, now, 0);
    if q.status == 200 && q.body.Some? && q.body.value != "" && now <= q.later + 60 {
      var v := Choose(Lookup(c.slots, q.path, q.now, 0).slots);
      assert Expired(slots[v], r.slots[v], q.path, now);
    }
  }

  //////////////////////////////////////////////////////////////////////////////
  // Whose body a hit returns
  //////////////////////////////////////////////////////////////////////////////

  /** Every record is an earlier request's own body. */
  lemma {:induction false} RecordIsRequestBody(requests: seq<Request>, j: nat) returns (i: nat)
    requires j < |History(requests)|
    ensures i < |requests| && requests[i].status == 200 && HasBody(requests[i])
    ensures History(requests)[j] == Record(requests[i].path, requests[i].body.value, requests[i].later)
  {
    var k := |requests| - 1;
    var before := History(requests[..k]);
    if j < |before| {
      i := RecordIsRequestBody(requests[..k], j);
    } else {
      i := k;
    }
  }

  /** A hit replays what an earlier request for the same path had sent. */
  lemma HitReplaysRequest(requests: seq<Request>, key: string, now: int) returns (i: nat)
    requires Clocked(requests, now) && ShortKeys(requests)
    requires Lookup(Run(requests).slots, key, now, 0).value.Some?
    ensures i < |requests| && requests[i].path == key && requests[i].status == 200 && HasBody(requests[i])
    ensures Lookup(Run(requests).slots, key, now, 0).value.value == AtMost(requests[i].body.value, 4095)
  {
    hide Run, History, Lookup, Latest, AtMost;
    HitIsLatest(requests, key, now);
    var records := History(requests);
    var j :| 0 <= j < |records| && Latest(records, j) && records[j].key == key && now <= records[j].time + TTL
             && Lookup(Run(requests).slots, key, now, 0).value.value == AtMost(records[j].value, VALUE_MAX);
    i := RecordIsRequestBody(requests, j);
  }

  /** Requests without a body of their own are never answered from the cache. */
  lemma {:induction false} NothingCachedWithoutBodies(requests: seq<Request>, key: string, now: int)
    requires forall i :: 0 <= i < |requests| ==> !HasBody(requests[i])
    ensures Run(requests).slots == Empty().slots
    ensures Lookup(Run(requests).slots, key, now, 0).value.None?
  {
    hide Lookup;
    if requests != [] {
      var before, q := requests[..|requests| - 1], requests[|requests| - 1];
      NothingCachedWithoutBodies(before, q.path, q.now);
      var slots := Run(before).slots;
      LookupFinds(slots, q.path, q.now, 0);
      var after := Lookup(slots, q.path, q.now, 0).slots;
      assert forall s :: 0 <= s < |slots| ==> Expired(slots[s], after[s], q.path, q.now);
      assert !HasBody(q);
    }
    LookupFinds(Run(requests).slots, key, now, 0);
  }

  //////////////////////////////////////////////////////////////////////////////
  // Long keys
  //////////////////////////////////////////////////////////////////////////////

  ghost predicate FitsBuffer(slots: seq<Slot>) {
    forall s :: 0 <= s < |slots| ==> |slots[s].key| <= KEY_MAX
  }

  lemma {:induction false} KeysFit(requests: seq<Request>)
    ensures FitsBuffer(Run(requests).slots)
  {
    if requests != [] {
      hide Lookup, Choose;
      var before, q := requests[..|requests| - 1], requests[|requests| - 1];
      KeysFit(before);
      LookupFinds(Run(before).slots, q.path, q.now, 0);
    }
  }

  /** In no run is a key of 128 characters or more ever found. */
  lemma LongKeyNeverHits(requests: seq<Request>, key: string, now: int)
    requires |key| > 127
    ensures Lookup(Run(requests).slots, key, now, 0).value.None?
  {
    KeysFit(requests);
    LookupFinds(Run(requests).slots, key, now, 0);
  }

  /** What is stored under a key that was missing is found under it exactly if the key fits. */
  lemma StoredIsFoundIffShort(slots: seq<Slot>, key: string, value: string, now: int)
    requires slots != [] && forall s :: 0 <= s < |slots| ==> !(slots[s].active && slots[s].key == key)
    ensures Lookup(Put(slots, key, value, now), key, now, 0).value.Some? <==> |key| <= 127
  {
    hide Lookup, Choose;
    var v, slots' := Choose(slots), Put(slots, key, value, now);
    LookupFinds(slots', key, now, 0);
    if |key| <= 127 {
      assert Expired(slots'[v], Lookup(slots', key, now, 0).slots[v], key, now);
    }
  }

  /** A longer key's value is served for the key's first 127 characters. */
  lemma LongKeyServesItsPrefix(slots: seq<Slot>, key: string, value: string, now: int)
    requires slots != [] && |key| > 127
    requires forall s :: 0 <= s < |slots| ==> !(slots[s].active && slots[s].key == key[..127])
    ensures Lookup(Put(slots, key, value, now), key[..127], now, 0).value == Some(AtMost(value, 4095))
  {
    hide Lookup, Choose;
    var v, slots' := Choose(slots), Put(slots, key, value, now);
    LookupFinds(slots', key[..127], now, 0);
    assert Expired(slots'[v], Lookup(slots', key[..127], now, 0).slots[v], key[..127], now);
  }

  //////////////////////////////////////////////////////////////////////////////
  // The procedures
  //////////////////////////////////////////////////////////////////////////////

  class ResponseCache {
    const slots: array<Slot>
    var hits: nat
    var misses: nat

    ghost predicate Valid()
      reads this
    {
      slots.Length == SLOTS
    }

    ghost function State(): Cache
      reads this, slots
    {
      Cache(slots[..], hits, misses)
    }

    constructor ()
      ensures Valid() && fresh(slots) && State() == Empty()
    {
      slots := new Slot[SLOTS](_ => Slot("", "", 0, false));
      hits, misses := 0, 0;
    }

    /** `cache_lookup`. */
    method Find(key: string, now: int) returns (r: Option<string>)
      requires Valid()
      modifies this, slots
      ensures Valid() && slots[..] == Lookup(old(slots[..]), key, now, 0).slots
      ensures r == Lookup(old(slots[..]), key, now, 0).value
      ensures hits == old(hits) + (if r.Some? then 1 else 0) && misses == old(misses) + (if r.Some? then 0 else 1)
    {
      var i := 0;
      while i < SLOTS
        invariant i <= SLOTS && hits == old(hits) && misses == old(misses)
        invariant Lookup(slots[..], key, now, i) == Lookup(old(slots[..]), key, now, 0)
      {
        if slots[i].active && slots[i].key == key {
          if now > slots[i].expires {
            ghost var before := slots[..];
            slots[i] := slots[i].(active := false);
            assert slots[..] == before[i := before[i].(active := false)];
          } else {
            hits := hits + 1;
            return Some(slots[i].value);
          }
        }
        i := i + 1;
      }
      misses := misses + 1;
      return None;
    }

    /** The slot that `cache_store` takes. */
    method SlotToFill() returns (slot: nat)
      requires Valid()
      ensures slot == Choose(slots[..])
    {
      var i := 0;
      while i < SLOTS && slots[i].active
        invariant i <= SLOTS && FirstOff(slots[..], 0) == FirstOff(slots[..], i)
      {
        i := i + 1;
      }
      if i < SLOTS {
        return i;
      }
      slot := 0;
      i := 1;
      while i < SLOTS
        invariant 1 <= i <= SLOTS && slot == FirstToExpire(slots[..], i)
      {
        if slots[i].expires < slots[slot].expires {
          slot := i;
        }
        i := i + 1;
      }
    }

    /** `cache_middleware`, for a request that does not bypass the cache. */
    method Middleware(q: Request) returns (r: Option<string>)
      requires Valid()
      modifies this, slots
      ensures Valid() && State() == Serve(old(State()), q)
      ensures r == Lookup(old(slots[..]), q.path, q.now, 0).value
    {
      hide Lookup, Choose, Entry;
      r := Find(q.path, q.now);
      LookupFinds(old(slots[..]), q.path, q.now, 0);
      if r.None? && q.status == 200 && q.body.Some? && q.body.value != "" {
        var slot := SlotToFill();
        ghost var before := slots[..];
        slots[slot] := Entry(q.path, q.body.value, q.later);
        assert slots[..] == before[slot := Entry(q.path, q.body.value, q.later)];
      }
    }
  }
}
