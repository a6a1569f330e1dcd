/**
 Route groups, after `src/app/group.c`.

 Groups form a tree. A group has a URL prefix, a growing array of middleware, and a route registered on
 it gets the middleware of all its ancestors, outermost first. Any allocation may fail.
 */
module Groups {
  import opened Wrappers
  import opened Paths

  /** A handler function, by address. */
  type Handler = nat

  datatype Route = Route(verb: string, path: string, chain: seq<Handler>)

  datatype Node = Node(prefix: string, middleware: seq<Handler>, parent: Option<nat>)

  /** All groups in order of creation, and the routes handed to the router. */
  datatype Forest = Forest(nodes: seq<Node>, routes: seq<Route>) {
    ghost predicate Valid() {
      forall g :: 0 <= g < |nodes| && nodes[g].parent.Some? ==> nodes[g].parent.value < g
    }
  }

  const EMPTY := Forest([], [])

  /** The middleware of a group and its ancestors, outermost first. */
  function Chain(s: Forest, g: nat): seq<Handler>
    requires s.Valid() && g < |s.nodes|
  {
    (if s.nodes[g].parent.None? then [] else Chain(s, s.nodes[g].parent.value)) + s.nodes[g].middleware
  }

  //////////////////////////////////////////////////////////////////////////////
  // Operations; `None` is NULL
  //////////////////////////////////////////////////////////////////////////////

  datatype Op =
    | New(prefix: Option<string>)
    | Sub(parent: nat, prefix: Option<string>)
    | Use(g: nat, handler: Handler)
    | Add(g: nat, verb: string, path: Option<string>, handlers: seq<Handler>)

  /** An operation and whether all its allocations (and the router) succeeded. */
  datatype Event = Event(op: Op, ok: bool)

  function Step(s: Forest, e: Event): (s': Forest)
    requires s.Valid()
    ensures s'.Valid()
  {
    if !e.ok then s else
      match e.op
      case New(prefix) =>
        s.(nodes := s.nodes + [Node(if prefix.Some? then prefix.value else "/", [], None)])
      case Sub(p, prefix) =>
        if p >= |s.nodes| then s
        else s.(nodes := s.nodes + [Node(JoinOptional(Some(s.nodes[p].prefix), prefix), [], Some(p))])
      case Use(g, h) =>
        if g >= |s.nodes| then s
        else s.(nodes := s.nodes[g := s.nodes[g].(middleware := s.nodes[g].middleware + [h])])
      case Add(g, verb, path, handlers) =>
        if g >= |s.nodes| || handlers == [] then s
        else s.(routes := s.routes + [Route(verb, JoinOptional(Some(s.nodes[g].prefix), path), Chain(s, g) + handlers)])
  }

  function Run(es: seq<Event>): (s: Forest)
    ensures s.Valid()
  {
    if es == [] then EMPTY else Step(Run(es[..|es| - 1]), es[|es| - 1])
  }

  //////////////////////////////////////////////////////////////////////////////
  // What a history of operations says, without any state
  //////////////////////////////////////////////////////////////////////////////

  /** Does an event create a group when `n` groups exist? */
  predicate Creates(e: Event, n: nat) {
    e.ok && (e.op.New? || (e.op.Sub? && e.op.parent < n))
  }

  function Count(es: seq<Event>): nat {
    if es == [] then 0 else
      var n := Count(es[..|es| - 1]);
      if Creates(es[|es| - 1], n) then n + 1 else n
  }

  /** The operation that created group `g`. */
  function Creation(es: seq<Event>, g: nat): (op: Op)
    requires g < Count(es)
    ensures op.New? || (op.Sub? && op.parent < g)
  {
    var before := es[..|es| - 1];
    if g < Count(before) then Creation(before, g) else es[|es| - 1].op
  }

  /** The groups from the root of `g`'s tree down to `g`. */
  function Lineage(es: seq<Event>, g: nat): (path: seq<nat>)
    requires g < Count(es)
    ensures forall a :: a in path ==> a <= g
    decreases g
  {
    match Creation(es, g)
    case Sub(p, _) => Lineage(es, p) + [g]
    case _ => [g]
  }

  /** The handlers given to `use` for group `g`, oldest first. */
  function Uses(es: seq<Event>, g: nat): seq<Handler> {
    if es == [] then [] else
      var before, e := es[..|es| - 1], es[|es| - 1];
      Uses(before, g) + if e.ok && e.op.Use? && e.op.g == g && g < Count(before) then [e.op.handler] else []
  }

  function UsesAlong(es: seq<Event>, path: seq<nat>): seq<Handler> {
    if path == [] then [] else UsesAlong(es, path[..|path| - 1]) + Uses(es, path[|path| - 1])
  }

  /** The prefix of group `g`: the prefixes along its lineage joined from the root down. */
  function FullPrefix(es: seq<Event>, g: nat): string
    requires g < Count(es)
    decreases g
  {
    match Creation(es, g)
    case Sub(p, prefix) => JoinOptional(Some(FullPrefix(es, p)), prefix)
    case New(prefix) => if prefix.Some? then prefix.value else "/"
    case _ => ""
  }

  /** The routes a history registers: each one frozen as of the moment of its registration. */
  function Registered(es: seq<Event>): seq<Route> {
    if es == [] then [] else
      var before, e := es[..|es| - 1], es[|es| - 1];
      if e.ok && e.op.Add? && e.op.g < Count(before) && e.op.handlers != [] then
        Registered(before)
        + [Route(e.op.verb, JoinOptional(Some(FullPrefix(before, e.op.g)), e.op.path),
                 UsesAlong(before, Lineage(before, e.op.g)) + e.op.handlers)]
      else Registered(before)
  }

  //////////////////////////////////////////////////////////////////////////////
  // State and history agree over every run
  //////////////////////////////////////////////////////////////////////////////

  ghost predicate NodeAgrees(es: seq<Event>, s: Forest, g: nat)
    requires g < Count(es) && g < |s.nodes|
  {
    && s.nodes[g].prefix == FullPrefix(es, g)
    && s.nodes[g].middleware == Uses(es, g)
    && s.nodes[g].parent == if Creation(es, g).Sub? then Some(Creation(es, g).parent) else None
  }

  ghost predicate Agrees(es: seq<Event>, s: Forest) {
    && |s.nodes| == Count(es)
    && (forall g :: 0 <= g < Count(es) ==> NodeAgrees(es, s, g))
    && s.routes == Registered(es)
  }

  /** A group's creation, lineage and prefix are fixed when it is created. */
  lemma {:induction false} OldGroupsStay(es: seq<Event>, g: nat)
    requires es != [] && g < Count(es[..|es| - 1])
    ensures g < Count(es) && Creation(es, g) == Creation(es[..|es| - 1], g)
    ensures FullPrefix(es, g) == FullPrefix(es[..|es| - 1], g)
    decreases g
  {
    var before := es[..|es| - 1];
    if Creation(before, g).Sub? {
      OldGroupsStay(es, Creation(before, g).parent);
    }
  }

  lemma {:induction false} ChainIsHistory(es: seq<Event>, s: Forest, g: nat)
    requires s.Valid() && Agrees(es, s) && g < Count(es)
    ensures Chain(s, g) == UsesAlong(es, Lineage(es, g))
    decreases g
  {
    assert NodeAgrees(es, s, g);
    if Creation(es, g).Sub? {
      var p := Creation(es, g).parent;
      ChainIsHistory(es, s, p);
      assert (Lineage(es, p) + [g])[..|Lineage(es, p)|] == Lineage(es, p);
    } else {
      assert Lineage(es, g) == [g] && [g][..0] == [];
    }
  }

  /** Nobody uses a group before it exists. */
  lemma {:induction false} NoEarlyUses(es: seq<Event>, g: nat)
    requires Count(es) <= g
    ensures Uses(es, g) == []
  {
    if es != [] {
      NoEarlyUses(es[..|es| - 1], g);
    }
  }

  /**
   In every run, with any pattern of failures, the groups and the registered routes are what the
   history says: a chain is the ancestors' middleware root to leaf as it stood when the route was
   added, followed by the route's handlers.
   */
  lemma {:induction false} RunAgrees(es: seq<Event>)
    ensures Agrees(es, Run(es))
  {
    if es != [] {
      var before, e := es[..|es| - 1], es[|es| - 1];
      RunAgrees(before);
      StepAgrees(es, Run(before));
    }
  }

  lemma StepAgrees(es: seq<Event>, s: Forest)
    requires es != [] && s.Valid() && Agrees(es[..|es| - 1], s)
    ensures Agrees(es, Step(s, es[|es| - 1]))
  {
    hide Chain, FullPrefix, Uses, Lineage, UsesAlong, JoinOptional;
    var before, e := es[..|es| - 1], es[|es| - 1];
    var s' := Step(s, e);
    var n := Count(before);
    assert |s'.nodes| == Count(es);
    forall g | 0 <= g < Count(es) ensures NodeAgrees(es, s', g) {
      if g < n {
        assert NodeAgrees(before, s, g);
        OldGroupsStay(es, g);
        UsesStep(es, g);
      } else {
        NewGroupAgrees(es, s);
      }
    }
    if e.op.Add? && e.op.g < n {
      assert NodeAgrees(before, s, e.op.g);
      ChainIsHistory(before, s, e.op.g);
    }
  }

  lemma UsesStep(es: seq<Event>, g: nat)
    requires es != []
    ensures var before, e := es[..|es| - 1], es[|es| - 1];
            Uses(es, g)
            == Uses(before, g) + if e.ok && e.op.Use? && e.op.g == g && g < Count(before) then [e.op.handler] else []
  {
  }

  lemma NewGroupAgrees(es: seq<Event>, s: Forest)
    requires es != [] && s.Valid() && Agrees(es[..|es| - 1], s)
    requires Creates(es[|es| - 1], Count(es[..|es| - 1]))
    ensures NodeAgrees(es, Step(s, es[|es| - 1]), Count(es[..|es| - 1]))
  {
    hide Chain, Lineage, UsesAlong, JoinOptional;
    var before, e := es[..|es| - 1], es[|es| - 1];
    var g := Count(before);
    NoEarlyUses(before, g);
    if e.op.Sub? {
      assert NodeAgrees(before, s, e.op.parent);
      OldGroupsStay(es, e.op.parent);
    }
  }

  /** What happens later never changes a registered route. */
  lemma {:induction false} RoutesAreFinal(es: seq<Event>, more: seq<Event>)
    ensures Run(es).routes <= Run(es + more).routes
  {
    if more == [] {
      assert es + more == es;
    } else {
      hide Step;
      var k := |more| - 1;
      RoutesAreFinal(es, more[..k]);
      assert (es + more)[..|es| + k] == es + more[..k];
      StepKeepsRoutes(Run(es + more[..k]), more[k]);
    }
  }

  lemma StepKeepsRoutes(s: Forest, e: Event)
    requires s.Valid()
    ensures s.routes <= Step(s, e).routes
  {
    hide Chain, JoinOptional;
  }

  //////////////////////////////////////////////////////////////////////////////
  // Nesting does not matter for paths
  //////////////////////////////////////////////////////////////////////////////

  /** The prefixes given along a lineage; defined when none of them was NULL. */
  function Components(es: seq<Event>, g: nat): Option<seq<string>>
    requires g < Count(es)
    decreases g
  {
    match Creation(es, g)
    case New(Some(prefix)) => Some([prefix])
    case Sub(p, Some(prefix)) =>
      (match Components(es, p)
       case Some(ps) => Some(ps + [prefix])
       case None => None)
    case _ => None
  }

  /** A group's prefix depends only on the sequence of prefixes from the root, not on their grouping. */
  lemma {:induction false} PrefixIsJoined(es: seq<Event>, g: nat)
    requires g < Count(es) && Components(es, g).Some?
    ensures FullPrefix(es, g) == JoinAll(Components(es, g).value)
    decreases g
  {
    var op := Creation(es, g);
    var prefix := op.prefix.value;
    if op.Sub? {
      PrefixIsJoined(es, op.parent);
      var ps := Components(es, op.parent).value;
      assert (ps + [prefix])[..|ps|] == ps;
      JoinOptionalIsJoin(FullPrefix(es, op.parent), prefix);
    } else {
      assert [prefix][..0] == [];
      assert JoinAll([prefix]) == Join(JoinAll([]), prefix);
    }
  }

  lemma JoinOptionalIsJoin(a: string, b: string)
    ensures JoinOptional(Some(a), Some(b)) == Join(a, b)
  {
  }

  /**
   Two groups, in any histories, whose prefixes are the same components split differently into
   subgroups give a route the same full path.
   */
  lemma NestingIsIrrelevant(es: seq<Event>, g: nat, fs: seq<Event>, h: nat,
                            ps: seq<string>, qs: seq<string>, rs: seq<string>, path: string)
    requires g < Count(es) && Components(es, g) == Some(ps + [JoinAll(qs)] + rs)
    requires h < Count(fs) && Components(fs, h) == Some(ps + qs + rs)
    ensures JoinOptional(Some(FullPrefix(es, g)), Some(path)) == JoinOptional(Some(FullPrefix(fs, h)), Some(path))
  {
    hide Join, FullPrefix, Components;
    PrefixIsJoined(es, g);
    PrefixIsJoined(fs, h);
    JoinAllConcat(ps + [JoinAll(qs)], rs);
    JoinAllConcat(ps + qs, rs);
    JoinAllConcat(ps, [JoinAll(qs)]);
    JoinAllConcat(ps, qs);
    assert [JoinAll(qs)][..0] == [];
    JoinIsMonoid(JoinAll(qs), "", "");
  }

  //////////////////////////////////////////////////////////////////////////////
  // The procedures
  //////////////////////////////////////////////////////////////////////////////

  lemma StepFailed(s: Forest, op: Op)
    requires s.Valid()
    ensures Step(s, Event(op, false)) == s
  {
  }

  lemma StepNew(s: Forest, prefix: Option<string>)
    requires s.Valid()
    ensures Step(s, Event(New(prefix), true))
            == s.(nodes := s.nodes + [Node(if prefix.Some? then prefix.value else "/", [], None)])
  {
  }

  lemma StepSub(s: Forest, p: nat, prefix: Option<string>)
    requires s.Valid() && p < |s.nodes|
    ensures Step(s, Event(Sub(p, prefix), true))
            == s.(nodes := s.nodes + [Node(JoinOptional(Some(s.nodes[p].prefix), prefix), [], Some(p))])
  {
  }

  lemma StepUse(s: Forest, g: nat, h: Handler)
    requires s.Valid() && g < |s.nodes|
    ensures var n := s.nodes[g];
            Step(s, Event(Use(g, h), true)) == s.(nodes := s.nodes[g := n.(middleware := n.middleware + [h])])
  {
  }

  lemma StepAdd(s: Forest, g: nat, verb: string, path: Option<string>, handlers: seq<Handler>)
    requires s.Valid() && g < |s.nodes| && handlers != []
    ensures Step(s, Event(Add(g, verb, path, handlers), true))
            == var fullPath := JoinOptional(Some(s.nodes[g].prefix), path);
               s.(routes := s.routes + [Route(verb, fullPath, Chain(s, g) + handlers)])
  {
  }

  const INITIAL_CAPACITY := 4

  /** Capacity after one more element has been appended to `count` of them. */
  function Capacity(count: nat, cap: nat): nat {
    if count < cap then cap else if cap == 0 then 4 else 2 * cap
  }

  /** `csilk_group_s`; the capacity is the length of the array. */
  class Group {
    const prefix: string
    const parent: Group?
    var middlewares: array<Handler>
    var count: nat

    /** Position in the router's list of groups. */
    ghost const id: nat

    constructor (prefix: string, parent: Group?, ghost id: nat)
      ensures this.prefix == prefix && this.parent == parent && this.id == id
      ensures fresh(middlewares) && middlewares.Length == 0 && count == 0
    {
      this.prefix, this.parent, this.id := prefix, parent, id;
      middlewares := new Handler[0];
      count := 0;
    }

    ghost function AsNode(): (n: Node)
      requires count <= middlewares.Length
      reads this, middlewares
    {
      Node(prefix, middlewares[..count], if parent == null then None else Some(parent.id))
    }

    /** The body of `csilk_group_use`: appends to an array that doubles when it is full. */
    method Append(handler: Handler, reallocOk: bool) returns (r: int)
      requires count <= middlewares.Length
      modifies this, middlewares
      ensures count <= middlewares.Length
      ensures r == if old(count) < old(middlewares.Length) || reallocOk then 0 else -1
      ensures middlewares == old(middlewares) || fresh(middlewares)
      ensures r == 0 ==>
                && AsNode() == old(AsNode()).(middleware := old(AsNode()).middleware + [handler])
                && middlewares.Length == Capacity(old(count), old(middlewares.Length))
      ensures r == -1 ==> AsNode() == old(AsNode()) && middlewares == old(middlewares)
    {
      if count >= middlewares.Length {
        var newCap := if middlewares.Length != 0 then middlewares.Length * 2 else INITIAL_CAPACITY;
        if !reallocOk {
          return -1;
        }
        middlewares := Grow(middlewares, newCap);
        assert middlewares[..count] == old(middlewares[..count]);
      }
      middlewares[count] := handler;
      count := count + 1;
      assert middlewares[..count] == old(middlewares[..count]) + [handler];
      return 0;
    }
  }

  /** The router, seen through the routes handed to it, with the groups that were created for it. */
  class Router {
    var routes: seq<Route>
    ghost var groups: seq<Group>

    /** What the groups and routes amount to. */
    ghost var state: Forest

    constructor ()
      ensures Valid() && state == EMPTY
    {
      routes := [];
      groups := [];
      state := EMPTY;
    }

    /** Positions and parents; only constant fields are involved. */
    ghost predicate Tree()
      reads this`groups
    {
      && (forall i :: 0 <= i < |groups| ==> groups[i].id == i)
      && (forall i :: 0 <= i < |groups| && groups[i].parent != null ==>
            groups[i].parent.id < i && groups[groups[i].parent.id] == groups[i].parent)
    }

    /** No two groups share an array. */
    ghost predicate Separate()
      reads this`groups, groups
    {
      forall i, j :: 0 <= i < j < |groups| ==> groups[i].middlewares != groups[j].middlewares
    }

    ghost predicate Represents(i: nat)
      requires i < |groups|
      reads this, groups[i], groups[i].middlewares
    {
      groups[i].count <= groups[i].middlewares.Length && i < |state.nodes| && state.nodes[i] == groups[i].AsNode()
    }

    ghost predicate Valid()
      reads this, groups, set g | g in groups :: g.middlewares
    {
      && state.Valid() && state.routes == routes && |state.nodes| == |groups|
      && Tree()
      && Separate()
      && (forall i :: 0 <= i < |groups| ==> Represents(i))
    }

    /** Records a newly created group. */
    ghost method Adopt(g: Group, op: Op)
      requires Valid() && g.id == |groups| && g.count == 0
      requires g.parent != null ==> g.parent in groups
      requires forall h :: h in groups ==> h != g && h.middlewares != g.middlewares
      requires Step(state, Event(op, true)) == state.(nodes := state.nodes + [g.AsNode()])
      modifies this
      ensures Valid() && groups == old(groups) + [g] && state == Step(old(state), Event(op, true))
    {
      hide Step, Forest.Valid;
      groups := groups + [g];
      state := Step(state, Event(op, true));
      forall i | 0 <= i < |groups| ensures Represents(i) {
        if i < old(|groups|) {
          assert old(Represents(i));
        }
      }
    }

    /** `csilk_group_new`. */
    method NewGroup(prefix: Option<string>, allocOk: bool) returns (g: Group?)
      requires Valid()
      modifies this
      ensures Valid() && state == Step(old(state), Event(New(prefix), allocOk))
      ensures g != null <==> allocOk
      ensures g != null ==> g.id == old(|groups|) && g.prefix == if prefix.Some? then prefix.value else "/"
      ensures groups == old(groups) + if g == null then [] else [g]
    {
      hide Step, Forest.Valid;
      if !allocOk {
        StepFailed(state, New(prefix));
        return null;
      }
      StepNew(state, prefix);
      g := new Group(if prefix.Some? then prefix.value else "/", null, |groups|);
      Adopt(g, New(prefix));
    }

    /** `csilk_group_group`. */
    method SubGroup(parent: Group?, prefix: Option<string>, allocOk: bool) returns (g: Group?)
      requires Valid() && (parent != null ==> parent in groups)
      modifies this
      ensures Valid()
      ensures state == if parent == null then old(state) else Step(old(state), Event(Sub(parent.id, prefix), allocOk))
      ensures g != null <==> parent != null && allocOk
      ensures g != null ==> g.id == old(|groups|) && g.prefix == JoinOptional(Some(parent.prefix), prefix)
      ensures groups == old(groups) + if g == null then [] else [g]
    {
      hide Step, Forest.Valid, JoinOptional;
      if parent == null {
        return null;
      }
      var joined := JoinPath(Some(parent.prefix), prefix, allocOk);
      if joined.None? {
        StepFailed(state, Sub(parent.id, prefix));
        return null;
      }
      assert Represents(parent.id);
      StepSub(state, parent.id, prefix);
      g := new Group(joined.value, parent, |groups|);
      Adopt(g, Sub(parent.id, prefix));
    }

    /** Valid up to what group `k` holds. */
    ghost predicate ValidExcept(k: nat)
      reads this, groups, set g | g in groups :: g.middlewares
    {
      && state.Valid() && state.routes == routes && |state.nodes| == |groups|
      && Tree()
      && Separate()
      && (forall i :: 0 <= i < |groups| && i != k ==> Represents(i))
    }

    /** Changing one group and its array leaves the others as they were. */
    twostate lemma OnlyOneChanged(k: nat)
      requires old(Valid()) && k < |groups| && groups == old(groups) && state == old(state) && routes == old(routes)
      requires forall i :: 0 <= i < |groups| && i != k ==> unchanged(groups[i]) && unchanged(old(groups[i].middlewares))
      requires groups[k].middlewares == old(groups[k].middlewares) || fresh(groups[k].middlewares)
      ensures ValidExcept(k)
    {
      hide Forest.Valid;
      forall i | 0 <= i < |groups| && i != k ensures Represents(i) {
        assert old(Represents(i));
      }
    }

    /** Records the new handler of a group whose array has been extended. */
    ghost method RecordUse(g: Group, handler: Handler)
      requires g in groups && ValidExcept(g.id) && g.count <= g.middlewares.Length
      requires var n := state.nodes[g.id]; g.AsNode() == n.(middleware := n.middleware + [handler])
      modifies this`state
      ensures Valid() && state == Step(old(state), Event(Op.Use(g.id, handler), true))
    {
      hide Step, Forest.Valid, Separate;
      StepUse(state, g.id, handler);
      state := Step(state, Event(Op.Use(g.id, handler), true));
      forall i | 0 <= i < |groups| ensures Represents(i) {
        assert i != g.id ==> old(Represents(i));
      }
    }

    /** `csilk_group_use`. */
    method Use(g: Group?, handler: Handler, reallocOk: bool) returns (r: int)
      requires Valid() && (g != null ==> g in groups)
      modifies this`state, g, if g == null then {} else {g.middlewares}
      ensures Valid() && groups == old(groups)
      ensures r == if g != null && (old(g.count) < old(g.middlewares.Length) || reallocOk) then 0 else -1
      ensures state == if g == null then old(state) else Step(old(state), Event(Op.Use(g.id, handler), r == 0))
      ensures g != null && r == 0 ==> g.middlewares.Length == Capacity(old(g.count), old(g.middlewares.Length))
    {
      hide Step, Forest.Valid, Capacity;
      if g == null {
        return -1;
      }
      assert Represents(g.id);
      StepFailed(state, Op.Use(g.id, handler));
      r := g.Append(handler, reallocOk);
      OnlyOneChanged(g.id);
      if r == 0 {
        RecordUse(g, handler);
      }
    }

    /**
     `gather_handlers`: on success the handlers collected before, followed by those of the ancestors
     and the group. Any of its allocations may fail.
     */
    method Gather(g: Group, handlers: array<Handler>, enough: bool) returns (ok: bool, combined: array<Handler>)
      requires Valid() && g in groups
      ensures enough ==> ok
      ensures ok ==> combined[..] == handlers[..] + Chain(state, g.id)
      decreases g.id
    {
      ok, combined := true, handlers;
      assert Represents(g.id);
      ghost var above := [];
      if g.parent != null {
        ok, combined := Gather(g.parent, handlers, enough);
        if !ok {
          return;
        }
        above := Chain(state, g.parent.id);
      }
      assert combined[..] == handlers[..] + above;
      if g.count > 0 {
        ok := Allocate(enough);
        if !ok {
          return;
        }
        combined := Extend(combined, g.middlewares[..g.count]);
      }
      assert Chain(state, g.id) == above + g.middlewares[..g.count];
    }

    /**
     `csilk_group_add_handlers`, which also serves the single-handler variants. `enough` says that no
     allocation fails, and `routerOk` is false when the router refuses the route.
     */
    method AddHandlers(g: Group?, verb: string, path: Option<string>, handlers: seq<Handler>, enough: bool,
                       routerOk: bool)
      returns (r: int)
      requires Valid() && (g != null ==> g in groups)
      modifies this
      ensures Valid() && groups == old(groups)
      ensures state == if g == null then old(state)
                       else Step(old(state), Event(Add(g.id, verb, path, handlers), r == 0))
      ensures r == 0 || r == -1
      ensures g == null || handlers == [] || !routerOk ==> r == -1
      ensures g != null && handlers != [] && enough && routerOk ==> r == 0
    {
      hide Step, Forest.Valid, JoinOptional, Chain;
      if g == null {
        return -1;
      }
      StepFailed(state, Add(g.id, verb, path, handlers));
      if handlers == [] {
        return -1;
      }
      var allocOk := Allocate(enough);
      var fullPath := JoinPath(Some(g.prefix), path, allocOk);
      if fullPath.None? {
        return -1;
      }
      var ok, chain := FullChain(g, handlers, enough);
      if !ok || !routerOk {
        return -1;
      }
      Register(g, verb, path, handlers, fullPath.value, chain);
      return 0;
    }

    /** `csilk_router_add`, as an entry of the log of routes. */
    method Register(g: Group, verb: string, path: Option<string>, handlers: seq<Handler>, fullPath: string,
                    chain: seq<Handler>)
      requires Valid() && g in groups && handlers != []
      requires fullPath == JoinOptional(Some(g.prefix), path) && chain == Chain(state, g.id) + handlers
      modifies this`routes, this`state
      ensures Valid() && state == Step(old(state), Event(Add(g.id, verb, path, handlers), true))
    {
      hide Step, Forest.Valid, JoinOptional, Chain, Separate;
      assert Represents(g.id);
      StepAdd(state, g.id, verb, path, handlers);
      routes := routes + [Route(verb, fullPath, chain)];
      state := Step(state, Event(Add(g.id, verb, path, handlers), true));
      forall i | 0 <= i < |groups| ensures Represents(i) {
        assert old(Represents(i));
      }
    }

    /** Gathers the middleware and appends the route's own handlers. */
    method FullChain(g: Group, handlers: seq<Handler>, enough: bool) returns (ok: bool, chain: seq<Handler>)
      requires Valid() && g in groups
      ensures enough ==> ok
      ensures ok ==> chain == Chain(state, g.id) + handlers
    {
      hide Chain, Forest.Valid;
      chain := [];
      var none := new Handler[0];
      var combined;
      ok, combined := Gather(g, none, enough);
      if !ok {
        return;
      }
      assert combined[..] == Chain(state, g.id);
      ok := Allocate(enough);
      if ok {
        combined := Extend(combined, handlers);
        chain := combined[..];
      }
    }
  }

  /** `realloc` to a larger size. */
  method Grow(a: array<Handler>, n: nat) returns (b: array<Handler>)
    requires n >= a.Length
    ensures fresh(b) && b.Length == n && b[..a.Length] == a[..]
  {
    b := new Handler[n](_ => 0);
    forall i | 0 <= i < a.Length { b[i] := a[i]; }
  }

  /** `realloc` followed by `memcpy` of the new elements to the end. */
  method Extend(a: array<Handler>, more: seq<Handler>) returns (b: array<Handler>)
    ensures fresh(b) && b[..] == a[..] + more
  {
    b := new Handler[a.Length + |more|](_ => 0);
    forall i | 0 <= i < a.Length { b[i] := a[i]; }
    forall i | 0 <= i < |more| { b[a.Length + i] := more[i]; }
  }
}
