/**
 The routing table, after `src/core/primitives/router.c` and `src/core/primitives/router_trie.c`.

 Routes are kept in a trie of path segments whose children are sorted: literal segments first, then
 parameters, then wildcards. A request is matched by a depth-first search with an explicit stack that
 undoes captured parameters when it backtracks.
 */
module RouteTrie {
  import opened Wrappers
  import opened Paths
  import opened Sequences

  /** The handler chain stored for a route. */
  type Endpoint = nat

  const MAX_DEPTH := 64

  const MAX_PARAMS := 20

  datatype Key = Static(name: string) | Param(name: string) | Wild(name: string)

  datatype Edge = Edge(key: Key, node: Node)

  datatype Node = Node(handlers: map<string, Endpoint>, children: seq<Edge>)

  const LEAF := Node(map[], [])

  //////////////////////////////////////////////////////////////////////////////
  // Segments
  //////////////////////////////////////////////////////////////////////////////

  function SegmentLength(s: string): (n: nat)
    ensures n <= |s|
  {
    if s == "" || s[0] == '/' then 0 else 1 + SegmentLength(s[1..])
  }

  datatype Cut = Cut(segment: string, rest: string)

  /** `get_next_segment`: skips slashes and takes the characters up to the next one. */
  function Next(path: string): (c: Option<Cut>)
    ensures c.Some? ==> |c.value.rest| < |path| && c.value.segment != ""
  {
    var s := StripLeft(path);
    if s == "" then None else Some(Cut(s[..SegmentLength(s)], s[SegmentLength(s)..]))
  }

  function KeyOf(segment: string): Key
    requires segment != ""
  {
    if segment[0] == ':' then Param(segment[1..])
    else if segment[0] == '*' then Wild(segment[1..])
    else Static(segment)
  }

  /** The keys of a route's path; nothing after a wildcard counts. */
  function Pattern(path: string): seq<Key>
    decreases |path|
  {
    match Next(path)
    case None => []
    case Some(cut) =>
      var key := KeyOf(cut.segment);
      if key.Wild? then [key] else [key] + Pattern(cut.rest)
  }

  /** Nothing is left of a request path, or a single slash. */
  predicate AtEnd(rest: string) {
    rest == "" || rest == "/"
  }

  //////////////////////////////////////////////////////////////////////////////
  // Which requests a pattern accepts, and what it captures
  //////////////////////////////////////////////////////////////////////////////

  predicate Accepts(pattern: seq<Key>, path: string) {
    if pattern == [] then AtEnd(path)
    else if pattern[0].Wild? then |pattern| == 1
    else
      match Next(path)
      case None => false
      case Some(cut) =>
        (pattern[0].Static? ==> pattern[0].name == cut.segment) && Accepts(pattern[1..], cut.rest)
  }

  datatype Capture = Capture(name: string, value: string)

  function Captured(params: seq<Capture>, name: string, value: string): seq<Capture> {
    params + [Capture(name, value)]
  }

  function Captures(pattern: seq<Key>, path: string, params: seq<Capture>): seq<Capture>
    requires Accepts(pattern, path)
  {
    if pattern == [] then params
    else
      match pattern[0]
      case Wild(name) => Captured(params, name, StripLeft(path))
      case Static(_) => Captures(pattern[1..], Next(path).value.rest, params)
      case Param(name) =>
        var cut := Next(path).value;
        Captures(pattern[1..], cut.rest, Captured(params, name, cut.segment))
  }

  //////////////////////////////////////////////////////////////////////////////
  // The order of keys
  //////////////////////////////////////////////////////////////////////////////

  /** `strcmp(s, t) < 0`. */
  predicate Before(s: string, t: string) {
    if t == "" then false
    else if s == "" then true
    else if s[0] != t[0] then s[0] < t[0]
    else Before(s[1..], t[1..])
  }

  function Rank(k: Key): nat {
    match k case Static(_) => 0 case Param(_) => 1 case Wild(_) => 2
  }

  predicate KeyLess(k: Key, l: Key) {
    Rank(k) < Rank(l) || (Rank(k) == Rank(l) && Before(k.name, l.name))
  }

  /** Lexicographic order on patterns; a pattern comes before its extensions. */
  predicate PatternLeq(p: seq<Key>, q: seq<Key>) {
    if p == [] then true
    else if q == [] then false
    else if p[0] == q[0] then PatternLeq(p[1..], q[1..])
    else KeyLess(p[0], q[0])
  }

  lemma {:induction false} BeforeIsStrict(s: string, t: string)
    ensures !(Before(s, t) && Before(t, s)) && !Before(s, s)
    ensures s == t || Before(s, t) || Before(t, s)
  {
    if s != "" && t != "" && s[0] == t[0] {
      BeforeIsStrict(s[1..], t[1..]);
      assert s == [s[0]] + s[1..] && t == [t[0]] + t[1..];
    }
    if s != "" {
      BeforeIsStrict(s[1..], s[1..]);
    }
  }

  lemma {:induction false} BeforeIsTransitive(s: string, t: string, u: string)
    requires Before(s, t) && Before(t, u)
    ensures Before(s, u)
  {
    if s != "" && s[0] == t[0] && t[0] == u[0] {
      BeforeIsTransitive(s[1..], t[1..], u[1..]);
    }
  }

  lemma KeyOrder(k: Key, l: Key)
    ensures !(KeyLess(k, l) && KeyLess(l, k)) && !KeyLess(k, k)
    ensures k == l || KeyLess(k, l) || KeyLess(l, k)
  {
    hide Before;
    BeforeIsStrict(k.name, l.name);
    BeforeIsStrict(k.name, k.name);
  }

  lemma KeyLessTransitive(k: Key, l: Key, m: Key)
    requires KeyLess(k, l) && KeyLess(l, m)
    ensures KeyLess(k, m)
  {
    hide Before;
    if Rank(k) == Rank(l) && Rank(l) == Rank(m) {
      BeforeIsTransitive(k.name, l.name, m.name);
    }
  }

  /** The order of patterns is total, and different patterns are never equal in it. */
  lemma {:induction false} PatternOrder(p: seq<Key>, q: seq<Key>)
    ensures PatternLeq(p, q) || PatternLeq(q, p)
    ensures PatternLeq(p, q) && PatternLeq(q, p) ==> p == q
  {
    if p != [] && q != [] {
      hide KeyLess;
      KeyOrder(p[0], q[0]);
      PatternOrder(p[1..], q[1..]);
      assert p == [p[0]] + p[1..] && q == [q[0]] + q[1..];
    }
  }

  //////////////////////////////////////////////////////////////////////////////
  // The trie
  //////////////////////////////////////////////////////////////////////////////

  ghost predicate Sorted(cs: seq<Edge>) {
    forall i, j :: 0 <= i < j < |cs| ==> KeyLess(cs[i].key, cs[j].key)
  }

  ghost predicate WellFormed(n: Node) {
    Sorted(n.children) && forall i :: 0 <= i < |n.children| ==> WellFormed(n.children[i].node)
  }

  /** `pos` is where `key` is or belongs. */
  ghost predicate IsPosition(cs: seq<Edge>, key: Key, pos: nat) {
    && pos <= |cs|
    && (forall i :: 0 <= i < pos ==> KeyLess(cs[i].key, key))
    && (forall i :: pos <= i < |cs| ==> !KeyLess(cs[i].key, key))
  }

  function Position(cs: seq<Edge>, key: Key): (pos: nat)
    ensures pos <= |cs|
  {
    if cs == [] || !KeyLess(cs[0].key, key) then 0 else 1 + Position(cs[1..], key)
  }

  lemma {:induction false} PositionFound(cs: seq<Edge>, key: Key)
    requires Sorted(cs)
    ensures IsPosition(cs, key, Position(cs, key))
  {
    if cs != [] {
      if KeyLess(cs[0].key, key) {
        PositionFound(cs[1..], key);
        forall i | Position(cs, key) <= i < |cs| ensures !KeyLess(cs[i].key, key) {
          assert cs[i] == cs[1..][i - 1];
        }
        forall i | 0 < i < Position(cs, key) ensures KeyLess(cs[i].key, key) {
          assert cs[i] == cs[1..][i - 1];
        }
      } else {
        forall i | 0 <= i < |cs| ensures !KeyLess(cs[i].key, key) {
          if i > 0 && KeyLess(cs[i].key, key) {
            KeyLessTransitive(cs[0].key, cs[i].key, key);
          }
        }
      }
    }
  }

  lemma PositionUnique(cs: seq<Edge>, key: Key, p: nat, q: nat)
    requires IsPosition(cs, key, p) && IsPosition(cs, key, q)
    ensures p == q
  {
    assert p < |cs| ==> (KeyLess(cs[p].key, key) <==> p < q);
    assert q < |cs| ==> (KeyLess(cs[q].key, key) <==> q < p);
  }

  function Child(n: Node, key: Key): Option<Node> {
    var p := Position(n.children, key);
    if p < |n.children| && n.children[p].key == key then Some(n.children[p].node) else None
  }

  /** The child of a sorted node with a given key is the only one with that key. */
  lemma ChildAt(n: Node, i: nat)
    requires Sorted(n.children) && i < |n.children|
    ensures Child(n, n.children[i].key) == Some(n.children[i].node)
  {
    hide KeyLess;
    var cs, key := n.children, n.children[i].key;
    PositionFound(cs, key);
    KeyOrder(key, key);
    forall j | 0 <= j < |cs| ensures j < i ==> KeyLess(cs[j].key, key)
                             ensures j > i ==> !KeyLess(cs[j].key, key) {
      KeyOrder(cs[j].key, key);
    }
    PositionUnique(cs, key, i, Position(cs, key));
  }

  lemma ChildHasIndex(n: Node, key: Key) returns (i: nat)
    requires Child(n, key).Some?
    ensures i < |n.children| && n.children[i] == Edge(key, Child(n, key).value)
  {
    i := Position(n.children, key);
  }

  /** The endpoint registered for exactly this pattern and method. */
  function Lookup(n: Node, pattern: seq<Key>, verb: string): Option<Endpoint>
    decreases |pattern|
  {
    if pattern == [] then (if verb in n.handlers then Some(n.handlers[verb]) else None)
    else
      match Child(n, pattern[0])
      case None => None
      case Some(c) => Lookup(c, pattern[1..], verb)
  }

  //////////////////////////////////////////////////////////////////////////////
  // Registering routes
  //////////////////////////////////////////////////////////////////////////////

  /** Replaces the child with this key, or adds it at its place. */
  function Put(n: Node, key: Key, c: Node): Node {
    var cs, p := n.children, Position(n.children, key);
    n.(children := if p < |cs| && cs[p].key == key then cs[p := Edge(key, c)] else cs[..p] + [Edge(key, c)] + cs[p..])
  }

  function ChildOrLeaf(n: Node, key: Key): Node {
    if Child(n, key).Some? then Child(n, key).value else LEAF
  }

  /** Adds a route; one that is already there for the same pattern and method stays. */
  function Insert(n: Node, pattern: seq<Key>, verb: string, h: Endpoint): Node
    decreases |pattern|
  {
    if pattern == [] then
      if verb in n.handlers then n else n.(handlers := n.handlers[verb := h])
    else
      Put(n, pattern[0], Insert(ChildOrLeaf(n, pattern[0]), pattern[1..], verb, h))
  }

  lemma SortedInsert(cs: seq<Edge>, e: Edge)
    requires Sorted(cs)
    ensures var p := Position(cs, e.key);
            if p < |cs| && cs[p].key == e.key then Sorted(cs[p := e]) else Sorted(cs[..p] + [e] + cs[p..])
  {
    hide KeyLess;
    var p := Position(cs, e.key);
    PositionFound(cs, e.key);
    if !(p < |cs| && cs[p].key == e.key) {
      forall i | p <= i < |cs| ensures KeyLess(e.key, cs[i].key) {
        KeyOrder(e.key, cs[i].key);
        if i > p {
          KeyOrder(cs[p].key, cs[i].key);
        }
      }
    }
  }

  lemma PutWellFormed(n: Node, key: Key, c: Node)
    requires WellFormed(n) && WellFormed(c)
    ensures WellFormed(Put(n, key, c))
  {
    hide KeyLess, Position, Sorted;
    SortedInsert(n.children, Edge(key, c));
  }

  /** Inserting a route keeps all children sorted. */
  lemma {:induction false} InsertWellFormed(n: Node, pattern: seq<Key>, verb: string, h: Endpoint)
    requires WellFormed(n)
    ensures WellFormed(Insert(n, pattern, verb, h))
    decreases |pattern|
  {
    if pattern != [] {
      hide Put, Child, Sorted;
      ChildOrLeafWellFormed(n, pattern[0]);
      InsertWellFormed(ChildOrLeaf(n, pattern[0]), pattern[1..], verb, h);
      PutWellFormed(n, pattern[0], Insert(ChildOrLeaf(n, pattern[0]), pattern[1..], verb, h));
    }
  }

  lemma ChildOrLeafWellFormed(n: Node, key: Key)
    requires WellFormed(n)
    ensures WellFormed(ChildOrLeaf(n, key))
  {
    if Child(n, key).Some? {
      var i := ChildHasIndex(n, key);
    }
  }

  lemma LeafWellFormed()
    ensures WellFormed(LEAF)
  {
  }

  /** Only the child with the key is affected. */
  lemma ChildOfPut(n: Node, key: Key, c: Node, k: Key)
    requires WellFormed(n) && WellFormed(c)
    ensures Child(Put(n, key, c), k) == if k == key then Some(c) else Child(n, k)
  {
    hide KeyLess, Position, Child, Put;
    var n' := Put(n, key, c);
    PutWellFormed(n, key, c);
    var i, found := EdgeOfPut(n, key, c);
    ChildAt(n', i);
    if k != key {
      if Child(n, k).Some? {
        var j := ChildHasIndex(n, k);
        var j' := if found || j < i then j else j + 1;
        assert n'.children[j'] == n.children[j];
        ChildAt(n', j');
      } else if Child(n', k).Some? {
        var j' := ChildHasIndex(n', k);
        var j := if found || j' < i then j' else j' - 1;
        assert n.children[j] == n'.children[j'];
        ChildAt(n, j);
      }
    }
  }

  /** Where the affected edge is, and how the edges of the old and the new node correspond. */
  lemma EdgeOfPut(n: Node, key: Key, c: Node) returns (i: nat, found: bool)
    ensures var n' := Put(n, key, c);
            && i < |n'.children| && |n'.children| == |n.children| + (if found then 0 else 1)
            && n'.children[i] == Edge(key, c)
            && (found ==> n.children[i].key == key)
            && (forall j :: 0 <= j < |n'.children| && j != i ==>
                  n'.children[j] == n.children[if found || j < i then j else j - 1])
  {
    hide KeyLess;
    i := Position(n.children, key);
    found := Child(n, key).Some?;
  }

  lemma LookupOfPut(n: Node, key: Key, c: Node, q: seq<Key>, w: string)
    requires WellFormed(n) && WellFormed(c)
    ensures Lookup(Put(n, key, c), q, w) == if q != [] && q[0] == key then Lookup(c, q[1..], w) else Lookup(n, q, w)
  {
    hide Child, Position;
    if q != [] {
      ChildOfPut(n, key, c, q[0]);
    }
  }

  lemma LookupBelow(n: Node, q: seq<Key>, w: string)
    requires q != []
    ensures Lookup(n, q, w) == Lookup(ChildOrLeaf(n, q[0]), q[1..], w)
  {
    hide Child;
    LookupInLeaf(q[1..], w);
  }

  /** A registered route is found under its own pattern and method, and nothing else changes. */
  lemma {:induction false} LookupOfInsert(n: Node, pattern: seq<Key>, verb: string, h: Endpoint, q: seq<Key>, w: string)
    requires WellFormed(n)
    ensures Lookup(Insert(n, pattern, verb, h), q, w)
            == if q == pattern && w == verb && Lookup(n, pattern, verb).None? then Some(h) else Lookup(n, q, w)
    decreases |pattern|
  {
    if pattern != [] {
      hide WellFormed, Child, ChildOrLeaf, Lookup, Put;
      var key, below := pattern[0], ChildOrLeaf(n, pattern[0]);
      var c := Insert(below, pattern[1..], verb, h);
      ChildOrLeafWellFormed(n, key);
      InsertWellFormed(below, pattern[1..], verb, h);
      LookupOfPut(n, key, c, q, w);
      if q != [] && q[0] == key {
        assert q == [key] + q[1..] && pattern == [key] + pattern[1..];
        LookupOfInsert(below, pattern[1..], verb, h, q[1..], w);
        LookupBelow(n, q, w);
        LookupBelow(n, pattern, verb);
      }
    }
  }

  lemma LookupInLeaf(q: seq<Key>, w: string)
    ensures Lookup(LEAF, q, w).None?
  {
    assert Position([], if q == [] then Static("") else q[0]) == 0;
  }

  datatype Route = Route(verb: string, path: string, endpoint: Endpoint)

  /** The endpoint of the first route registered with this pattern and method. */
  function FirstRegistered(routes: seq<Route>, pattern: seq<Key>, verb: string): Option<Endpoint> {
    if routes == [] then None else
      var earlier, r := FirstRegistered(routes[..|routes| - 1], pattern, verb), routes[|routes| - 1];
      if earlier.Some? then earlier
      else if Pattern(r.path) == pattern && r.verb == verb then Some(r.endpoint) else None
  }

  /** The trie is sorted and holds exactly these routes, the first of each pattern and method. */
  ghost predicate Holds(n: Node, routes: seq<Route>) {
    WellFormed(n) && forall q, w :: Lookup(n, q, w) == FirstRegistered(routes, q, w)
  }

  lemma EmptyHoldsNothing()
    ensures Holds(LEAF, [])
  {
    LeafWellFormed();
    forall q, w ensures Lookup(LEAF, q, w) == FirstRegistered([], q, w) {
      LookupInLeaf(q, w);
    }
  }

  /** Registering one more route. */
  lemma InsertHolds(n: Node, routes: seq<Route>, r: Route)
    requires Holds(n, routes)
    ensures Holds(Insert(n, Pattern(r.path), r.verb, r.endpoint), routes + [r])
  {
    hide Insert, Lookup, Pattern, WellFormed;
    var pattern := Pattern(r.path);
    InsertWellFormed(n, pattern, r.verb, r.endpoint);
    assert (routes + [r])[..|routes|] == routes;
    forall q, w ensures Lookup(Insert(n, pattern, r.verb, r.endpoint), q, w) == FirstRegistered(routes + [r], q, w) {
      LookupOfInsert(n, pattern, r.verb, r.endpoint, q, w);
    }
  }

  //////////////////////////////////////////////////////////////////////////////
  // Matching by recursion
  //////////////////////////////////////////////////////////////////////////////

  datatype Hit = Hit(endpoint: Endpoint, params: seq<Capture>)

  /** Depth-first search below `n`, which lies `depth` levels under the root. */
  function Match(n: Node, verb: string, rest: string, params: seq<Capture>, depth: nat): Option<Hit>
    requires depth < MAX_DEPTH
    decreases n, 1, 0
  {
    if AtEnd(rest) && verb in n.handlers then Some(Hit(n.handlers[verb], params))
    else if depth >= MAX_DEPTH - 1 then None
    else MatchFrom(n, 0, verb, rest, params, depth)
  }

  /** The first success among the children from `i` on. */
  function MatchFrom(n: Node, i: nat, verb: string, rest: string, params: seq<Capture>, depth: nat): Option<Hit>
    requires i <= |n.children| && depth < MAX_DEPTH - 1
    decreases n, 0, |n.children| - i
  {
    if i == |n.children| then None else
      var hit := MatchChild(n, i, verb, rest, params, depth);
      if hit.Some? then hit else MatchFrom(n, i + 1, verb, rest, params, depth)
  }

  function MatchChild(n: Node, i: nat, verb: string, rest: string, params: seq<Capture>, depth: nat): Option<Hit>
    requires i < |n.children| && depth < MAX_DEPTH - 1
    decreases n, 0, |n.children| - i, 0
  {
    var c := n.children[i].node;
    match n.children[i].key
    case Static(name) =>
      (match Next(rest)
       case None => None
       case Some(cut) => if cut.segment == name then Match(c, verb, cut.rest, params, depth + 1) else None)
    case Param(name) =>
      (match Next(rest)
       case None => None
       case Some(cut) => Match(c, verb, cut.rest, Captured(params, name, cut.segment), depth + 1))
    case Wild(name) =>
      if verb in c.handlers then Some(Hit(c.handlers[verb], Captured(params, name, StripLeft(rest)))) else None
  }

  /** A registered pattern that accepts the path within the depth limit. */
  ghost predicate Candidate(n: Node, verb: string, rest: string, depth: nat, q: seq<Key>) {
    Lookup(n, q, verb).Some? && Accepts(q, rest) && depth + |q| < MAX_DEPTH
  }

  /** What the search below `n` promises about the pattern `p` of its hit. */
  ghost predicate IsLeast(n: Node, verb: string, rest: string, params: seq<Capture>, depth: nat, p: seq<Key>,
                          hit: Hit)
  {
    && Candidate(n, verb, rest, depth, p)
    && Lookup(n, p, verb) == Some(hit.endpoint)
    && hit.params == Captures(p, rest, params)
    && (forall q :: Candidate(n, verb, rest, depth, q) ==> PatternLeq(p, q))
  }

  lemma CandidateStep(n: Node, verb: string, rest: string, depth: nat, q: seq<Key>) returns (j: nat)
    requires Candidate(n, verb, rest, depth, q) && q != []
    ensures j < |n.children| && n.children[j].key == q[0] && depth < MAX_DEPTH - 1
    ensures Lookup(n.children[j].node, q[1..], verb) == Lookup(n, q, verb)
    ensures q[0].Wild? ==> q[1..] == [] && verb in n.children[j].node.handlers
    ensures !q[0].Wild? ==>
              Next(rest).Some? && Candidate(n.children[j].node, verb, Next(rest).value.rest, depth + 1, q[1..])
    ensures q[0].Static? ==> q[0].name == Next(rest).value.segment
  {
    j := ChildHasIndex(n, q[0]);
  }

  /** A candidate is never missed. */
  lemma {:induction false} MatchComplete(n: Node, verb: string, rest: string, params: seq<Capture>, depth: nat,
                                         q: seq<Key>)
    requires depth < MAX_DEPTH && Candidate(n, verb, rest, depth, q)
    ensures Match(n, verb, rest, params, depth).Some?
    decreases n, 1
  {
    if q != [] {
      hide Candidate, Lookup, Accepts;
      var j := CandidateStep(n, verb, rest, depth, q);
      ChildComplete(n, j, verb, rest, params, depth, q);
      FromComplete(n, 0, j, verb, rest, params, depth);
    }
  }

  lemma {:induction false} ChildComplete(n: Node, j: nat, verb: string, rest: string, params: seq<Capture>,
                                         depth: nat, q: seq<Key>)
    requires Candidate(n, verb, rest, depth, q) && q != []
    requires j < |n.children| && n.children[j].key == q[0] && depth < MAX_DEPTH - 1
    requires Lookup(n.children[j].node, q[1..], verb) == Lookup(n, q, verb)
    ensures MatchChild(n, j, verb, rest, params, depth).Some?
    decreases n, 0
  {
    if !q[0].Wild? {
      var cut := Next(rest).value;
      var params' := if q[0].Param? then Captured(params, q[0].name, cut.segment) else params;
      MatchComplete(n.children[j].node, verb, cut.rest, params', depth + 1, q[1..]);
    }
  }

  lemma {:induction false} FromComplete(n: Node, i: nat, j: nat, verb: string, rest: string,
                                        params: seq<Capture>, depth: nat)
    requires i <= j < |n.children| && depth < MAX_DEPTH - 1
    requires MatchChild(n, j, verb, rest, params, depth).Some?
    ensures MatchFrom(n, i, verb, rest, params, depth).Some?
    decreases j - i
  {
    hide MatchChild;
    if i < j {
      FromComplete(n, i + 1, j, verb, rest, params, depth);
    }
  }

  /** The child that produced the hit; all children before it had none. */
  lemma {:induction false} FromHit(n: Node, i: nat, verb: string, rest: string, params: seq<Capture>, depth: nat)
    returns (k: nat)
    requires i <= |n.children| && depth < MAX_DEPTH - 1
    requires MatchFrom(n, i, verb, rest, params, depth).Some?
    ensures i <= k < |n.children|
    ensures MatchChild(n, k, verb, rest, params, depth) == MatchFrom(n, i, verb, rest, params, depth)
    ensures forall j :: i <= j < k ==> MatchChild(n, j, verb, rest, params, depth).None?
    decreases |n.children| - i
  {
    hide MatchChild;
    if MatchChild(n, i, verb, rest, params, depth).Some? {
      k := i;
    } else {
      k := FromHit(n, i + 1, verb, rest, params, depth);
    }
  }

  /** A hit comes from the least registered pattern that accepts the path, with that pattern's captures. */
  lemma {:induction false} MatchLeast(n: Node, verb: string, rest: string, params: seq<Capture>, depth: nat)
    returns (p: seq<Key>)
    requires WellFormed(n) && depth < MAX_DEPTH && Match(n, verb, rest, params, depth).Some?
    ensures IsLeast(n, verb, rest, params, depth, p, Match(n, verb, rest, params, depth).value)
    decreases n
  {
    if AtEnd(rest) && verb in n.handlers {
      p := [];
    } else {
      var k := FromHit(n, 0, verb, rest, params, depth);
      var c := n.children[k].node;
      var key := n.children[k].key;
      ChildAt(n, k);
      if key.Wild? {
        p := [key];
      } else {
        var cut := Next(rest).value;
        var params' := if key.Param? then Captured(params, key.name, cut.segment) else params;
        var p' := MatchLeast(c, verb, cut.rest, params', depth + 1);
        p := [key] + p';
      }
      assert p[1..] == if key.Wild? then [] else p[1..];
      LeastThroughChild(n, verb, rest, params, depth, k, p);
    }
  }

  lemma LeastThroughChild(n: Node, verb: string, rest: string, params: seq<Capture>, depth: nat, k: nat, p: seq<Key>)
    requires WellFormed(n) && depth < MAX_DEPTH - 1 && !(AtEnd(rest) && verb in n.handlers)
    requires k < |n.children| && p != [] && p[0] == n.children[k].key && Candidate(n, verb, rest, depth, p)
    requires forall j :: 0 <= j < k ==> MatchChild(n, j, verb, rest, params, depth).None?
    requires p[0].Wild? ==> |p| == 1
    requires !p[0].Wild? ==>
               && Next(rest).Some?
               && forall q ::
                    Candidate(n.children[k].node, verb, Next(rest).value.rest, depth + 1, q) ==> PatternLeq(p[1..], q)
    ensures forall q :: Candidate(n, verb, rest, depth, q) ==> PatternLeq(p, q)
  {
    forall q | Candidate(n, verb, rest, depth, q) ensures PatternLeq(p, q) {
      assert q != [];
      var j := CandidateStep(n, verb, rest, depth, q);
      ChildComplete(n, j, verb, rest, params, depth, q);
      assert j >= k;
      if j > k {
        KeyOrder(p[0], q[0]);
      }
    }
  }

  /**
   Routing a request over any list of registered routes: the hit is the endpoint registered first under
   the least pattern that accepts the path and has the method; there is no hit exactly when no such
   pattern of fewer than 64 keys is registered.
   */
  lemma RoutingIsLeastPattern(n: Node, routes: seq<Route>, verb: string, path: string) returns (p: seq<Key>)
    requires Holds(n, routes)
    ensures var hit := Match(n, verb, path, [], 0);
            && (hit.None? <==>
                  forall q :: FirstRegistered(routes, q, verb).Some? && Accepts(q, path) ==> |q| >= MAX_DEPTH)
            && (hit.Some? ==>
                  && FirstRegistered(routes, p, verb) == Some(hit.value.endpoint)
                  && Accepts(p, path) && |p| < MAX_DEPTH
                  && hit.value.params == Captures(p, path, [])
                  && (forall q :: FirstRegistered(routes, q, verb).Some? && Accepts(q, path) && |q| < MAX_DEPTH
                        ==> PatternLeq(p, q)))
  {
    hide Match, Lookup, FirstRegistered, Accepts, PatternLeq;
    var hit := Match(n, verb, path, [], 0);
    p := [];
    if hit.Some? {
      p := MatchLeast(n, verb, path, [], 0);
    } else {
      forall q | FirstRegistered(routes, q, verb).Some? && Accepts(q, path) ensures |q| >= MAX_DEPTH {
        if |q| < MAX_DEPTH {
          MatchComplete(n, verb, path, [], 0, q);
        }
      }
    }
  }

  //////////////////////////////////////////////////////////////////////////////
  // What the text of a route means
  //////////////////////////////////////////////////////////////////////////////

  datatype Part = Literal(text: string) | Named(name: string) | Rest(name: string)

  function PartText(p: Part): string {
    match p
    case Literal(text) => text
    case Named(name) => ":" + name
    case Rest(name) => "*" + name
  }

  function RouteText(ps: seq<Part>): string {
    if ps == [] then "" else "/" + PartText(ps[0]) + RouteText(ps[1..])
  }

  function RequestText(vs: seq<string>): string {
    if vs == [] then "" else "/" + vs[0] + RequestText(vs[1..])
  }

  /** A segment: not empty and without a slash. */
  predicate IsSegment(s: string) {
    s != "" && '/' !in s
  }

  predicate ValidPart(p: Part) {
    match p
    case Literal(text) => IsSegment(text) && text[0] != ':' && text[0] != '*'
    case Named(name) => '/' !in name
    case Rest(name) => '/' !in name
  }

  /** Literals and parameters, and at most one rest, at the end. */
  predicate ValidRoute(ps: seq<Part>) {
    && (forall i :: 0 <= i < |ps| ==> ValidPart(ps[i]))
    && (forall i :: 0 <= i < |ps| - 1 ==> !ps[i].Rest?)
  }

  predicate ValidRequest(vs: seq<string>) {
    forall i :: 0 <= i < |vs| ==> IsSegment(vs[i])
  }

  /** A path may end with a slash. */
  predicate IsTail(tail: string) {
    tail == "" || tail == "/"
  }

  /** The segments fit the parts one by one; a rest takes all that are left. */
  predicate FitsRoute(ps: seq<Part>, vs: seq<string>) {
    if ps == [] then vs == []
    else if ps[0].Rest? then true
    else vs != [] && (ps[0].Literal? ==> vs[0] == ps[0].text) && FitsRoute(ps[1..], vs[1..])
  }

  /** Each parameter captures its segment, and a rest what is left of the text. */
  function TextCaptures(ps: seq<Part>, vs: seq<string>, tail: string): seq<Capture> {
    if ps == [] then []
    else if ps[0].Rest? then [Capture(ps[0].name, if vs == [] then "" else (RequestText(vs) + tail)[1..])]
    else if vs == [] then []
    else (if ps[0].Named? then [Capture(ps[0].name, vs[0])] else []) + TextCaptures(ps[1..], vs[1..], tail)
  }

  function Keys(ps: seq<Part>): seq<Key> {
    if ps == [] then [] else [PartKey(ps[0])] + Keys(ps[1..])
  }

  function PartKey(p: Part): Key {
    match p
    case Literal(text) => Static(text)
    case Named(name) => Param(name)
    case Rest(name) => Wild(name)
  }

  lemma {:induction false} SegmentLengthOf(s: string, t: string)
    requires '/' !in s && (t == "" || t[0] == '/')
    ensures SegmentLength(s + t) == |s|
  {
    if s == "" {
      assert s + t == t;
    } else {
      assert (s + t)[1..] == s[1..] + t;
      SegmentLengthOf(s[1..], t);
    }
  }

  /** The next segment of a text that starts with one. */
  lemma NextOf(s: string, t: string)
    requires IsSegment(s) && (t == "" || t[0] == '/')
    ensures Next("/" + s + t) == Some(Cut(s, t))
  {
    hide SegmentLength;
    var path := "/" + s + t;
    assert s[0] in s;
    assert path[0] == '/' && path[1..] == s + t && (s + t)[0] == s[0];
    assert StripLeft(path) == StripLeft(s + t) == s + t;
    SegmentLengthOf(s, t);
    assert (s + t)[..|s|] == s && (s + t)[|s|..] == t;
  }

  lemma NextOfTail(tail: string)
    requires IsTail(tail)
    ensures Next(tail) == None
  {
    if tail == "/" {
      assert tail[1..] == "";
    }
  }

  lemma RouteTextStep(ps: seq<Part>, tail: string)
    requires ps != [] && IsTail(tail)
    ensures RouteText(ps) + tail == "/" + PartText(ps[0]) + (RouteText(ps[1..]) + tail)
    ensures var rest := RouteText(ps[1..]) + tail; rest == "" || rest[0] == '/'
  {
  }

  lemma RequestTextStep(vs: seq<string>, tail: string)
    requires vs != [] && IsTail(tail)
    ensures RequestText(vs) + tail == "/" + vs[0] + (RequestText(vs[1..]) + tail)
    ensures var rest := RequestText(vs[1..]) + tail; rest == "" || rest[0] == '/'
  {
  }

  lemma KeyOfPart(p: Part)
    requires ValidPart(p)
    ensures IsSegment(PartText(p)) && KeyOf(PartText(p)) == PartKey(p)
  {
  }

  /** A route's text is read as its parts. */
  lemma {:induction false} PatternOfText(ps: seq<Part>, tail: string)
    requires ValidRoute(ps) && IsTail(tail)
    ensures Pattern(RouteText(ps) + tail) == Keys(ps)
  {
    hide Next, KeyOf;
    if ps == [] {
      NextOfTail(tail);
      assert RouteText(ps) + tail == tail;
    } else {
      var rest := RouteText(ps[1..]) + tail;
      RouteTextStep(ps, tail);
      KeyOfPart(ps[0]);
      NextOf(PartText(ps[0]), rest);
      PatternStep(RouteText(ps) + tail);
      if ps[0].Rest? {
        assert ps[1..] == [];
        PatternOfText([], "");
        assert RouteText([]) + "" == "";
      } else {
        PatternOfText(ps[1..], tail);
      }
    }
  }

  /** A route accepts exactly the requests whose segments fit it. */
  lemma {:induction false} AcceptsText(ps: seq<Part>, vs: seq<string>, tail: string)
    requires ValidRoute(ps) && ValidRequest(vs) && IsTail(tail)
    ensures Accepts(Keys(ps), RequestText(vs) + tail) <==> FitsRoute(ps, vs)
  {
    hide Next, RequestText;
    if ps == [] {
      EndOfText(vs, tail);
    } else if ps[0].Rest? {
      assert ps[1..] == [];
    } else if vs == [] {
      EndOfText(vs, tail);
    } else {
      RequestTextStep(vs, tail);
      NextOf(vs[0], RequestText(vs[1..]) + tail);
      AcceptsText(ps[1..], vs[1..], tail);
      assert Keys(ps)[1..] == Keys(ps[1..]);
    }
  }

  lemma EndOfText(vs: seq<string>, tail: string)
    requires ValidRequest(vs) && IsTail(tail)
    ensures AtEnd(RequestText(vs) + tail) <==> vs == []
    ensures vs == [] ==> Next(RequestText(vs) + tail) == None
  {
    hide Next;
    if vs == [] {
      assert RequestText(vs) + tail == tail;
      NextOfTail(tail);
    } else {
      RequestTextStep(vs, tail);
      assert |RequestText(vs) + tail| > 1;
    }
  }

  lemma {:induction false} CapturesText(ps: seq<Part>, vs: seq<string>, tail: string, params: seq<Capture>)
    requires ValidRoute(ps) && ValidRequest(vs) && IsTail(tail) && Accepts(Keys(ps), RequestText(vs) + tail)
    ensures Captures(Keys(ps), RequestText(vs) + tail, params) == params + TextCaptures(ps, vs, tail)
  {
    hide Next, RequestText, StripLeft, Accepts, Captures, Keys;
    AcceptsText(ps, vs, tail);
    KeysHead(ps);
    var path := RequestText(vs) + tail;
    if ps == [] {
      NothingCaptured(path, params);
    } else if ps[0].Rest? {
      assert ps[1..] == [];
      KeysHead(ps[1..]);
      StripOfText(vs, tail);
      WildCaptured(Keys(ps), path, params);
    } else {
      RequestTextStep(vs, tail);
      NextOf(vs[0], RequestText(vs[1..]) + tail);
      HeadCaptured(Keys(ps), path, params);
      CapturesText(ps[1..], vs[1..], tail, if ps[0].Named? then Captured(params, ps[0].name, vs[0]) else params);
      TextCapturesStep(ps, vs, tail, params);
    }
  }

  lemma KeysHead(ps: seq<Part>)
    ensures ps == [] ==> Keys(ps) == []
    ensures ps != [] ==> Keys(ps) != [] && Keys(ps)[0] == PartKey(ps[0]) && Keys(ps)[1..] == Keys(ps[1..])
  {
  }

  lemma NothingCaptured(path: string, params: seq<Capture>)
    requires Accepts([], path)
    ensures Captures([], path, params) == params
  {
  }

  lemma WildCaptured(keys: seq<Key>, path: string, params: seq<Capture>)
    requires Accepts(keys, path) && keys != [] && keys[0].Wild?
    ensures Captures(keys, path, params) == params + [Capture(keys[0].name, StripLeft(path))]
  {
  }

  lemma HeadCaptured(keys: seq<Key>, path: string, params: seq<Capture>)
    requires Accepts(keys, path) && keys != [] && !keys[0].Wild?
    ensures Next(path).Some? && Accepts(keys[1..], Next(path).value.rest)
    ensures var cut := Next(path).value;
            Captures(keys, path, params)
            == Captures(keys[1..], cut.rest,
                        if keys[0].Param? then Captured(params, keys[0].name, cut.segment) else params)
  {
    hide Next;
  }

  lemma TextCapturesStep(ps: seq<Part>, vs: seq<string>, tail: string, params: seq<Capture>)
    requires ps != [] && vs != [] && !ps[0].Rest?
    ensures params + TextCaptures(ps, vs, tail)
         == (if ps[0].Named? then Captured(params, ps[0].name, vs[0]) else params)
            + TextCaptures(ps[1..], vs[1..], tail)
  {
    hide RequestText;
  }

  lemma StripOfText(vs: seq<string>, tail: string)
    requires ValidRequest(vs) && IsTail(tail)
    ensures StripLeft(RequestText(vs) + tail) == if vs == [] then "" else (RequestText(vs) + tail)[1..]
  {
    if vs == [] {
      assert RequestText(vs) + tail == tail;
      assert tail == "/" ==> tail[1..] == "";
    } else {
      RequestTextStep(vs, tail);
      var text := vs[0] + (RequestText(vs[1..]) + tail);
      assert (RequestText(vs) + tail)[1..] == text && text[0] == vs[0][0];
    }
  }

  lemma OnlyRoute(r: Route, q: seq<Key>, verb: string)
    ensures FirstRegistered([r], q, verb) == if q == Pattern(r.path) && verb == r.verb then Some(r.endpoint) else None
  {
    assert [r][..0] == [];
  }

  /**
   A router with one route, in terms of the texts alone: the route is hit exactly by the requests whose
   segments fit its parts, with or without a slash at the end, and gives each parameter its segment.
   */
  lemma OneRoute(n: Node, verb: string, e: Endpoint, ps: seq<Part>, end: string, vs: seq<string>, tail: string)
    requires ValidRoute(ps) && ValidRequest(vs) && IsTail(end) && IsTail(tail) && |ps| < 64
    requires Holds(n, [Route(verb, RouteText(ps) + end, e)])
    ensures Match(n, verb, RequestText(vs) + tail, [], 0)
         == if FitsRoute(ps, vs) then Some(Hit(e, TextCaptures(ps, vs, tail))) else None
  {
    hide Match, Accepts, Captures, Pattern, RouteText, RequestText, FitsRoute, TextCaptures, Holds, Keys;
    PatternOfText(ps, end);
    AcceptsText(ps, vs, tail);
    KeysLength(ps);
    OnlyPattern(n, Route(verb, RouteText(ps) + end, e), RequestText(vs) + tail);
    if FitsRoute(ps, vs) {
      CapturesText(ps, vs, tail, []);
      assert [] + TextCaptures(ps, vs, tail) == TextCaptures(ps, vs, tail);
    }
  }

  lemma OnlyPattern(n: Node, r: Route, path: string)
    requires Holds(n, [r]) && |Pattern(r.path)| < MAX_DEPTH
    ensures var k := Pattern(r.path);
            Match(n, r.verb, path, [], 0)
            == if Accepts(k, path) then Some(Hit(r.endpoint, Captures(k, path, []))) else None
  {
    hide Match, Accepts, Captures, Pattern, FirstRegistered, Holds, PatternLeq;
    var p := RoutingIsLeastPattern(n, [r], r.verb, path);
    OnlyRoute(r, p, r.verb);
    OnlyRoute(r, Pattern(r.path), r.verb);
    forall q | q != Pattern(r.path) ensures FirstRegistered([r], q, r.verb).None? {
      OnlyRoute(r, q, r.verb);
    }
  }

  lemma {:induction false} KeysLength(ps: seq<Part>)
    ensures |Keys(ps)| == |ps|
  {
    if ps != [] {
      KeysLength(ps[1..]);
    }
  }

  lemma TwoParts(p: Part, q: Part)
    ensures RouteText([p, q]) == "/" + PartText(p) + "/" + PartText(q)
    ensures Keys([p, q]) == [PartKey(p), PartKey(q)]
  {
    assert [p, q][1..] == [q] && [q][1..] == [];
    assert RouteText([q]) == "/" + PartText(q);
    assert Keys([q]) == [PartKey(q)] + Keys([]) == [PartKey(q)];
  }

  lemma FewSegments(a: string, v: string, w: string)
    ensures RequestText([a]) == "/" + a
    ensures RequestText([a, v]) == "/" + a + "/" + v
    ensures RequestText([a, v, w]) == "/" + a + "/" + v + "/" + w
  {
    assert [a, v, w][1..] == [v, w] && [v, w][1..] == [w] && [w][1..] == [] && [a][1..] == [];
    assert [a, v][1..] == [v] && [v][1..] == [];
    assert RequestText([w]) == "/" + w && RequestText([v]) == "/" + v;
    assert RequestText([v, w]) == "/" + v + "/" + w;
  }

  /** A parameter route by its text: what it takes, what it captures, and what it does not take. */
  lemma ParameterRoute(n: Node, verb: string, e: Endpoint, a: string, x: string, v: string, w: string)
    requires IsSegment(a) && a[0] != ':' && a[0] != '*' && '/' !in x && IsSegment(v) && IsSegment(w)
    requires Holds(n, [Route(verb, "/" + a + "/:" + x, e)])
    ensures Match(n, verb, "/" + a + "/" + v, [], 0) == Some(Hit(e, [Capture(x, v)]))
    ensures Match(n, verb, "/" + a + "/" + v + "/", [], 0) == Some(Hit(e, [Capture(x, v)]))
    ensures Match(n, verb, "/" + a + "/" + v + "/" + w, [], 0) == None
    ensures Match(n, verb, "/" + a, [], 0) == None
  {
    hide Match, Holds, RouteText, RequestText, FitsRoute, TextCaptures;
    var ps := [Literal(a), Named(x)];
    TwoParts(ps[0], ps[1]);
    assert RouteText(ps) + "" == "/" + a + "/:" + x;
    FewSegments(a, v, w);
    NoTail(RequestText([a]));
    NoTail(RequestText([a, v]));
    NoTail(RequestText([a, v, w]));
    FitsTwo(a, x, v, w);
    OneRoute(n, verb, e, ps, "", [a, v], "");
    OneRoute(n, verb, e, ps, "", [a, v], "/");
    OneRoute(n, verb, e, ps, "", [a, v, w], "");
    OneRoute(n, verb, e, ps, "", [a], "");
  }

  lemma NoTail(s: string)
    ensures s + "" == s
  {
  }

  lemma FitsTwo(a: string, x: string, v: string, w: string)
    ensures var ps := [Literal(a), Named(x)];
            && FitsRoute(ps, [a, v]) && !FitsRoute(ps, [a, v, w]) && !FitsRoute(ps, [a])
            && forall tail :: TextCaptures(ps, [a, v], tail) == [Capture(x, v)]
  {
    var ps := [Literal(a), Named(x)];
    assert ps[1..] == [Named(x)] && [Named(x)][1..] == [];
    assert [a, v, w][1..] == [v, w] && [v, w][1..] == [w] && [a, v][1..] == [v] && [v][1..] == [] && [a][1..] == [];
    assert FitsRoute([], []) && !FitsRoute([], [w]);
    assert FitsRoute([Named(x)], [v]) && !FitsRoute([Named(x)], [v, w]) && !FitsRoute([Named(x)], []);
    forall tail ensures TextCaptures(ps, [a, v], tail) == [Capture(x, v)] {
      assert TextCaptures([Named(x)], [v], tail) == [Capture(x, v)] + TextCaptures([], [], tail);
    }
  }

  /** A wildcard route takes everything below it, and captures it without its leading slashes. */
  lemma WildcardRoute(n: Node, verb: string, e: Endpoint, a: string, x: string, t: string) returns (k: nat)
    requires IsSegment(a) && a[0] != ':' && a[0] != '*' && '/' !in x
    requires Holds(n, [Route(verb, "/" + a + "/*" + x, e)])
    ensures k <= |t| && (forall i :: 0 <= i < k ==> t[i] == '/') && (k < |t| ==> t[k] != '/')
    ensures Match(n, verb, "/" + a + "/" + t, [], 0) == Some(Hit(e, [Capture(x, t[k..])]))
  {
    hide Match, Holds, Pattern, Accepts, Captures, RouteText, Keys;
    var r, path := Route(verb, "/" + a + "/*" + x, e), "/" + a + "/" + t;
    TwoParts(Literal(a), Rest(x));
    NoTail(r.path);
    assert r.path == RouteText([Literal(a), Rest(x)]);
    PatternOfText([Literal(a), Rest(x)], "");
    k := LeadingSlashes(t);
    WildAccepts(a, x, t, k);
    OnlyPattern(n, r, path);
  }

  lemma WildAccepts(a: string, x: string, t: string, k: nat)
    requires IsSegment(a) && k <= |t| && StripLeft(t) == t[k..]
    ensures var keys, path := [Static(a), Wild(x)], "/" + a + "/" + t;
            Accepts(keys, path) && Captures(keys, path, []) == [Capture(x, t[k..])]
  {
    hide Next;
    var keys, path := [Static(a), Wild(x)], "/" + a + "/" + t;
    NextOf(a, "/" + t);
    assert path == "/" + a + ("/" + t);
    assert keys[1..] == [Wild(x)];
    assert ("/" + t)[1..] == t && StripLeft("/" + t) == StripLeft(t);
  }

  //////////////////////////////////////////////////////////////////////////////
  // Which of several routes is taken
  //////////////////////////////////////////////////////////////////////////////

  lemma {:induction false} KeysAppend(ps: seq<Part>, qs: seq<Part>)
    ensures Keys(ps + qs) == Keys(ps) + Keys(qs)
  {
    if ps == [] {
      assert ps + qs == qs;
    } else {
      assert (ps + qs)[0] == ps[0] && (ps + qs)[1..] == ps[1..] + qs;
      KeysAppend(ps[1..], qs);
    }
  }

  lemma {:induction false} PatternLeqCommon(k: seq<Key>, p: seq<Key>, q: seq<Key>)
    ensures PatternLeq(k + p, k + q) == PatternLeq(p, q)
  {
    if k == [] {
      assert k + p == p && k + q == q;
    } else {
      assert (k + p)[0] == k[0] == (k + q)[0] && (k + p)[1..] == k[1..] + p && (k + q)[1..] == k[1..] + q;
      PatternLeqCommon(k[1..], p, q);
    }
  }

  lemma {:induction false} FirstRegisteredFrom(routes: seq<Route>, q: seq<Key>, verb: string)
    ensures FirstRegistered(routes, q, verb).Some?
            <==> exists r :: r in routes && Pattern(r.path) == q && r.verb == verb
    ensures FirstRegistered(routes, q, verb).Some? ==>
              exists r :: && r in routes && Pattern(r.path) == q && r.verb == verb
                          && r.endpoint == FirstRegistered(routes, q, verb).value
  {
    hide Pattern;
    if routes != [] {
      var before, last := routes[..|routes| - 1], routes[|routes| - 1];
      FirstRegisteredFrom(before, q, verb);
      assert forall r :: r in routes <==> r in before || r == last;
    }
  }

  lemma {:induction false} FitsAppend(ps: seq<Part>, us: seq<string>, p: Part, v: string)
    requires FitsRoute(ps, us) && forall i :: 0 <= i < |ps| ==> !ps[i].Rest?
    ensures FitsRoute(ps + [p], us + [v]) <==> (p.Literal? ==> p.text == v)
  {
    if ps == [] {
      assert ps + [p] == [p] && us + [v] == [v] && [p][1..] == [] && [v][1..] == [];
    } else {
      assert (ps + [p])[0] == ps[0] && (ps + [p])[1..] == ps[1..] + [p];
      assert (us + [v])[0] == us[0] && (us + [v])[1..] == us[1..] + [v];
      FitsAppend(ps[1..], us[1..], p, v);
    }
  }

  /** The text of a route that ends with the part `p`. */
  function EndingWith(ps: seq<Part>, p: Part, verb: string, e: Endpoint): Route {
    Route(verb, RouteText(ps + [p]), e)
  }

  lemma EndingPattern(ps: seq<Part>, p: Part, verb: string, e: Endpoint)
    requires ValidRoute(ps + [p])
    ensures Pattern(EndingWith(ps, p, verb, e).path) == Keys(ps) + Keys([p])
  {
    hide Pattern, Keys;
    PatternOfText(ps + [p], "");
    assert RouteText(ps + [p]) + "" == RouteText(ps + [p]);
    KeysAppend(ps, [p]);
  }

  /** A part that the search tries before another: literals, then parameters, then a rest. */
  lemma LesserPartWins(n: Node, routes: seq<Route>, verb: string, ps: seq<Part>, us: seq<string>, v: string,
                       tail: string, p: Part, e: Endpoint)
    requires Holds(n, routes) && |ps| < 63 && ValidRoute(ps + [p]) && forall i :: 0 <= i < |ps| ==> !ps[i].Rest?
    requires FitsRoute(ps, us) && ValidRequest(us + [v]) && IsTail(tail) && (p.Literal? ==> p.text == v)
    requires EndingWith(ps, p, verb, e) in routes
    requires forall r :: r in routes ==>
               exists q, f :: && ValidRoute(ps + [q]) && r == EndingWith(ps, q, verb, f)
                              && (q == p ==> f == e) && (q != p ==> !PatternLeq(Keys([q]), Keys([p])))
    ensures var hit := Match(n, verb, RequestText(us + [v]) + tail, [], 0); hit.Some? && hit.value.endpoint == e
  {
    hide Match, Holds, Accepts, Captures, Pattern, RouteText, RequestText, FitsRoute, FirstRegistered, Keys, PatternLeq;
    var path := RequestText(us + [v]) + tail;
    var best := Keys(ps) + Keys([p]);
    EndingPattern(ps, p, verb, e);
    FitsAppend(ps, us, p, v);
    AcceptsText(ps + [p], us + [v], tail);
    KeysAppend(ps, [p]);
    KeysLength(ps + [p]);
    var m := RoutingIsLeastPattern(n, routes, verb, path);
    FirstRegisteredFrom(routes, best, verb);
    FirstRegisteredFrom(routes, m, verb);
    var r :| && r in routes && Pattern(r.path) == m && r.verb == verb
             && Some(r.endpoint) == FirstRegistered(routes, m, verb);
    var q, f :| && ValidRoute(ps + [q]) && r == EndingWith(ps, q, verb, f)
                && (q == p ==> f == e) && (q != p ==> !PatternLeq(Keys([q]), Keys([p])));
    EndingPattern(ps, q, verb, f);
    PatternLeqCommon(Keys(ps), Keys([q]), Keys([p]));
  }

  lemma PartOrder(p: Part, q: Part)
    ensures p.Literal? && !q.Literal? ==> !PatternLeq(Keys([q]), Keys([p]))
    ensures p.Named? && q.Rest? ==> !PatternLeq(Keys([q]), Keys([p]))
  {
    assert [p][1..] == [] && [q][1..] == [];
  }

  /**
   Routes that differ only in their last part: whatever the order of registration, the literal is taken
   before the parameter and the parameter before the wildcard.
   */
  lemma LiteralThenParameterThenWildcard(n: Node, routes: seq<Route>, verb: string, ps: seq<Part>, us: seq<string>,
                                         v: string, tail: string, x: string, y: string,
                                         literal: Endpoint, named: Endpoint, wild: Endpoint)
    requires Holds(n, routes) && |ps| < 63 && ValidRoute(ps) && forall i :: 0 <= i < |ps| ==> !ps[i].Rest?
    requires FitsRoute(ps, us) && ValidRequest(us) && IsTail(tail)
    requires IsSegment(v) && v[0] != ':' && v[0] != '*' && '/' !in x && '/' !in y
    requires forall r :: r in routes ==>
               || r == EndingWith(ps, Literal(v), verb, literal)
               || r == EndingWith(ps, Named(x), verb, named)
               || r == EndingWith(ps, Rest(y), verb, wild)
    ensures routes != [] ==>
              var hit := Match(n, verb, RequestText(us + [v]) + tail, [], 0);
              hit.Some? && hit.value.endpoint == if EndingWith(ps, Literal(v), verb, literal) in routes then literal
                                                 else if EndingWith(ps, Named(x), verb, named) in routes then named
                                                 else wild
  {
    hide Match, Holds, RouteText, RequestText, FitsRoute, Keys, PatternLeq, EndingWith;
    if routes != [] {
      assert routes[0] in routes;
      PartOrder(Literal(v), Named(x));
      PartOrder(Literal(v), Rest(y));
      PartOrder(Named(x), Rest(y));
      if EndingWith(ps, Literal(v), verb, literal) in routes {
        LesserPartWins(n, routes, verb, ps, us, v, tail, Literal(v), literal);
      } else if EndingWith(ps, Named(x), verb, named) in routes {
        LesserPartWins(n, routes, verb, ps, us, v, tail, Named(x), named);
      } else {
        LesserPartWins(n, routes, verb, ps, us, v, tail, Rest(y), wild);
      }
    }
  }

  /** `strcmp` puts `s` first: it is a proper prefix, or has the smaller character where they first differ. */
  lemma {:induction false} BeforeAt(s: string, t: string, i: nat)
    requires i <= |s| && i < |t| && s[..i] == t[..i] && (i == |s| || s[i] < t[i])
    ensures Before(s, t)
  {
    if i > 0 {
      assert s[0] == s[..i][0] == t[..i][0] == t[0];
      assert s[1..][..i - 1] == s[..i][1..] && t[1..][..i - 1] == t[..i][1..];
      BeforeAt(s[1..], t[1..], i - 1);
    }
  }

  /** Of two parameters in the same place, the one with the lesser name is taken. */
  lemma LesserNameWins(n: Node, routes: seq<Route>, verb: string, ps: seq<Part>, us: seq<string>, v: string,
                       tail: string, x: string, y: string, i: nat, first: Endpoint, second: Endpoint)
    requires Holds(n, routes) && |ps| < 63 && ValidRoute(ps) && forall i :: 0 <= i < |ps| ==> !ps[i].Rest?
    requires FitsRoute(ps, us) && ValidRequest(us) && IsTail(tail) && IsSegment(v) && '/' !in x && '/' !in y
    requires i <= |x| && i < |y| && x[..i] == y[..i] && (i == |x| || x[i] < y[i])
    requires EndingWith(ps, Named(x), verb, first) in routes
    requires forall r :: r in routes ==>
               r == EndingWith(ps, Named(x), verb, first) || r == EndingWith(ps, Named(y), verb, second)
    ensures var hit := Match(n, verb, RequestText(us + [v]) + tail, [], 0); hit.Some? && hit.value.endpoint == first
  {
    hide Match, Holds, RouteText, RequestText, FitsRoute, EndingWith;
    BeforeAt(x, y, i);
    NamedOrder(x, y);
    LesserPartWins(n, routes, verb, ps, us, v, tail, Named(x), first);
  }

  lemma NamedOrder(x: string, y: string)
    requires Before(x, y)
    ensures !PatternLeq(Keys([Named(y)]), Keys([Named(x)])) && x != y
  {
    hide Before;
    BeforeIsStrict(x, y);
    assert [Named(x)][1..] == [] && [Named(y)][1..] == [];
  }

  //////////////////////////////////////////////////////////////////////////////
  // The procedures that cut a path and register a route
  //////////////////////////////////////////////////////////////////////////////

  lemma SlashSkipped(path: string, i: nat)
    requires i < |path| && path[i] == '/'
    ensures StripLeft(path[i..]) == StripLeft(path[i + 1..])
  {
    assert path[i..][1..] == path[i + 1..];
  }

  lemma SegmentStarts(path: string, i: nat)
    requires i <= |path| && (i < |path| ==> path[i] != '/')
    ensures StripLeft(path[i..]) == path[i..]
  {
  }

  lemma CharacterTaken(path: string, j: nat)
    requires j < |path| && path[j] != '/'
    ensures SegmentLength(path[j..]) == 1 + SegmentLength(path[j + 1..])
  {
    assert path[j..][1..] == path[j + 1..];
  }

  lemma SegmentEnds(path: string, j: nat)
    requires j <= |path| && (j < |path| ==> path[j] == '/')
    ensures SegmentLength(path[j..]) == 0
  {
  }

  /** The procedure of `get_next_segment`: one loop over the slashes, one over the segment. */
  method NextSegment(path: string) returns (c: Option<Cut>)
    ensures c == Next(path)
  {
    hide StripLeft, SegmentLength;
    var i := 0;
    while i < |path| && path[i] == '/'
      invariant i <= |path| && StripLeft(path[i..]) == StripLeft(path)
    {
      SlashSkipped(path, i);
      i := i + 1;
    }
    SegmentStarts(path, i);
    if i == |path| {
      return None;
    }
    var j := i;
    while j < |path| && path[j] != '/'
      invariant i <= j <= |path| && SegmentLength(path[i..]) == j - i + SegmentLength(path[j..])
    {
      CharacterTaken(path, j);
      j := j + 1;
    }
    SegmentEnds(path, j);
    assert path[i..][..j - i] == path[i..j] && path[i..][j - i..] == path[j..];
    return Some(Cut(path[i..j], path[j..]));
  }

  /** `node_find_child`: binary search among the sorted children. */
  method FindChild(cs: seq<Edge>, key: Key) returns (found: bool, pos: nat)
    requires Sorted(cs)
    ensures pos == Position(cs, key)
    ensures found == (pos < |cs| && cs[pos].key == key)
  {
    hide KeyLess, Position;
    PositionFound(cs, key);
    ghost var p := Position(cs, key);
    var low, high := 0, |cs| - 1;
    while low <= high
      invariant 0 <= low <= p <= high + 1 <= |cs|
      invariant p <= high || p == |cs| || cs[p].key != key
      decreases high - low
    {
      var mid := low + (high - low) / 2;
      KeyOrder(key, cs[mid].key);
      if cs[mid].key == key {
        KeyOrder(key, key);
        assert p <= mid;
        if p < mid {
          KeyOrder(cs[p].key, key);
        }
        return true, mid;
      }
      if KeyLess(key, cs[mid].key) {
        high := mid - 1;
      } else {
        low := mid + 1;
      }
    }
    return false, low;
  }

  ghost predicate SameRoutes(n: Node, n': Node) {
    forall q, w :: Lookup(n', q, w) == Lookup(n, q, w)
  }

  /**
   `router_add_full` below one node. Memory may run out at any segment or at the handler; nodes that were
   added before that stay, without handlers.
   */
  method AddBelow(n: Node, path: string, verb: string, h: Endpoint, enough: bool) returns (ok: bool, n': Node)
    requires WellFormed(n)
    ensures WellFormed(n') && (enough ==> ok)
    ensures ok ==> n' == Insert(n, Pattern(path), verb, h)
    ensures !ok ==> SameRoutes(n, n')
    decreases |path|
  {
    hide WellFormed, Put, Lookup, Sorted, Position;
    var next := NextSegment(path);
    if next.None? {
      if verb in n.handlers {
        return true, n;
      }
      ok := Allocate(enough);
      HandlerWellFormed(n, verb, h);
      n' := if ok then n.(handlers := n.handlers[verb := h]) else n;
      return;
    }
    var key := KeyOf(next.value.segment);
    ok := Allocate(enough);
    if !ok {
      return false, n;
    }
    ChildrenSorted(n);
    var found, p := FindChild(n.children, key);
    if !found {
      ok := Allocate(enough);
      if !ok {
        return false, n;
      }
    }
    var below := if found then n.children[p].node else LEAF;
    ChildOrLeafWellFormed(n, key);
    var rest := if key.Wild? then "" else next.value.rest;
    PatternStep(path);
    var child;
    ok, child := AddBelow(below, rest, verb, h, enough);
    n' := Put(n, key, child);
    PutWellFormed(n, key, child);
    if !ok {
      SameBelow(n, key, child);
    }
  }

  lemma HandlerWellFormed(n: Node, verb: string, h: Endpoint)
    requires WellFormed(n)
    ensures WellFormed(n.(handlers := n.handlers[verb := h]))
  {
  }

  lemma ChildrenSorted(n: Node)
    requires WellFormed(n)
    ensures Sorted(n.children)
  {
  }

  lemma PatternStep(path: string)
    requires Next(path).Some?
    ensures var cut := Next(path).value;
            var key := KeyOf(cut.segment);
            Pattern(path) == [key] + Pattern(if key.Wild? then "" else cut.rest)
  {
    assert Pattern("") == [];
  }

  /** Changing nothing below a child changes nothing. */
  lemma SameBelow(n: Node, key: Key, child: Node)
    requires WellFormed(n) && WellFormed(child) && SameRoutes(ChildOrLeaf(n, key), child)
    ensures SameRoutes(n, Put(n, key, child))
  {
    hide Lookup, WellFormed, Put, ChildOrLeaf;
    forall q, w ensures Lookup(Put(n, key, child), q, w) == Lookup(n, q, w) {
      LookupOfPut(n, key, child, q, w);
      if q != [] && q[0] == key {
        LookupBelow(n, q, w);
      }
    }
  }

  /** `router_add_full`: in every run the trie holds exactly the routes whose registration succeeded. */
  method AddRoute(root: Node, r: Route, enough: bool, ghost routes: seq<Route>) returns (ok: bool, root': Node)
    requires Holds(root, routes)
    ensures enough ==> ok
    ensures Holds(root', if ok then routes + [r] else routes)
  {
    hide WellFormed, Insert, Lookup, Pattern, FirstRegistered;
    ok, root' := AddBelow(root, r.path, r.verb, r.endpoint, enough);
    if ok {
      InsertHolds(root, routes, r);
    }
  }

  /** The routes whose registration succeeded. */
  function Succeeded(rs: seq<Route>, oks: seq<bool>): seq<Route>
    requires |oks| == |rs|
  {
    if rs == [] then [] else
      var k := |rs| - 1;
      Succeeded(rs[..k], oks[..k]) + if oks[k] then [rs[k]] else []
  }

  /** Any run of registrations on a new router; `enough[i]` says that there is memory for the `i`-th. */
  method RegisterAll(rs: seq<Route>, enough: seq<bool>) returns (root: Node, oks: seq<bool>)
    requires |enough| == |rs|
    ensures |oks| == |rs| && forall i :: 0 <= i < |rs| ==> enough[i] ==> oks[i]
    ensures Holds(root, Succeeded(rs, oks))
  {
    hide *;
    root, oks := LEAF, [];
    EmptyHoldsNothing();
    NoneSucceeded(rs[..0]);
    var i := 0;
    while i < |rs|
      invariant |oks| == i <= |rs| && forall j :: 0 <= j < i ==> enough[j] ==> oks[j]
      invariant Holds(root, Succeeded(rs[..i], oks))
    {
      var ok;
      ghost var done := Succeeded(rs[..i], oks);
      ok, root := AddRoute(root, rs[i], enough[i], done);
      SucceededStep(rs[..i], oks, rs[i], ok);
      assert rs[..i] + [rs[i]] == rs[..i + 1];
      oks := oks + [ok];
      i := i + 1;
    }
    assert rs[..i] == rs;
  }

  lemma NoneSucceeded(rs: seq<Route>)
    requires rs == []
    ensures Succeeded(rs, []) == []
  {
  }

  lemma SucceededStep(rs: seq<Route>, oks: seq<bool>, r: Route, ok: bool)
    requires |oks| == |rs|
    ensures Succeeded(rs + [r], oks + [ok]) == if ok then Succeeded(rs, oks) + [r] else Succeeded(rs, oks)
  {
    assert (rs + [r])[..|rs|] == rs && (oks + [ok])[..|oks|] == oks;
  }

  //////////////////////////////////////////////////////////////////////////////
  // Captured parameters
  //////////////////////////////////////////////////////////////////////////////

  /** `a` is `b` with some elements left out. */
  predicate Sublist(a: seq<Capture>, b: seq<Capture>) {
    if b == [] then a == []
    else
      var k := |b| - 1;
      Sublist(a, b[..k]) || (a != [] && a[|a| - 1] == b[k] && Sublist(a[..|a| - 1], b[..k]))
  }

  /**
   What the context keeps of the captures of a match: some of them, in order, and the first 20 if memory
   suffices; nothing without a context.
   */
  ghost predicate Keeps(params: seq<Capture>, all: seq<Capture>, context: bool, enough: bool) {
    && |params| <= 20 && Sublist(params, all)
    && (!context ==> params == [])
    && (context && enough ==> params == AtMost(all, 20))
  }

  lemma SublistAppend(a: seq<Capture>, b: seq<Capture>, c: Capture)
    requires Sublist(a, b)
    ensures Sublist(a, b + [c]) && Sublist(a + [c], b + [c])
  {
    assert (b + [c])[..|b|] == b && (a + [c])[..|a|] == a;
  }

  /** `capture_param` and `capture_wildcard_param`: a parameter that is not kept does not stop the match. */
  method CaptureParam(params: seq<Capture>, c: Capture, context: bool, enough: bool, ghost all: seq<Capture>)
    returns (params': seq<Capture>)
    requires Keeps(params, all, context, enough)
    ensures Keeps(params', all + [c], context, enough)
    ensures params' == params || params' == params + [c]
  {
    hide Sublist;
    SublistAppend(params, all, c);
    if !context || |params| >= MAX_PARAMS {
      return params;
    }
    var ok := Allocate(enough);
    return if ok then params + [c] else params;
  }

  //////////////////////////////////////////////////////////////////////////////
  // The procedure that matches a request
  //////////////////////////////////////////////////////////////////////////////

  /** `router_stack_frame_t`. */
  datatype Frame = Frame(node: Node, path: string, childIdx: nat, snapshot: nat, added: bool, checked: bool)

  function Fresh(n: Node, path: string, snapshot: nat, added: bool): Frame {
    Frame(n, path, 0, snapshot, added, false)
  }

  /** Parameters left after a frame is given up. */
  function Rollback(f: Frame, params: seq<Capture>): seq<Capture> {
    if f.added && f.snapshot <= |params| then params[..f.snapshot] else params
  }

  /** What the search still finds below one frame that was entered with the captures `all`. */
  ghost function Continue(f: Frame, verb: string, all: seq<Capture>, depth: nat): Option<Hit>
    requires f.childIdx <= |f.node.children| && depth < MAX_DEPTH
  {
    if !f.checked && AtEnd(f.path) && verb in f.node.handlers then Some(Hit(f.node.handlers[verb], all))
    else if depth >= MAX_DEPTH - 1 then None
    else MatchFrom(f.node, f.childIdx, verb, f.path, all, depth)
  }

  ghost predicate StackOk(stack: seq<Frame>) {
    |stack| <= MAX_DEPTH && forall i :: 0 <= i < |stack| ==> stack[i].childIdx <= |stack[i].node.children|
  }

  /** What the whole stack still finds: the top frame first, then the rest. */
  ghost function Resume(stack: seq<Frame>, alls: seq<seq<Capture>>, verb: string): Option<Hit>
    requires StackOk(stack) && |alls| == |stack|
  {
    if stack == [] then None else
      var d := |stack| - 1;
      var hit := Continue(stack[d], verb, alls[d], d);
      if hit.Some? then hit else Resume(stack[..d], alls[..d], verb)
  }

  /** Each frame was entered with parameters that keep its captures; rolling back gives those of the frame below. */
  ghost predicate Restores(stack: seq<Frame>, alls: seq<seq<Capture>>, params: seq<seq<Capture>>,
                           context: bool, enough: bool)
  {
    && |stack| == |alls| == |params|
    && (forall d :: 0 <= d < |stack| ==> Keeps(params[d], alls[d], context, enough))
    && (forall d :: 0 < d < |stack| ==> Rollback(stack[d], params[d]) == params[d - 1])
    && (stack != [] ==> Rollback(stack[0], params[0]) == [])
  }

  function Size(n: Node): nat
    decreases n, 1, 0
  {
    2 + SizeFrom(n, 0)
  }

  function SizeFrom(n: Node, i: nat): nat
    requires i <= |n.children|
    decreases n, 0, |n.children| - i
  {
    if i == |n.children| then 0 else 1 + Size(n.children[i].node) + SizeFrom(n, i + 1)
  }

  ghost function Work(stack: seq<Frame>): nat
    requires StackOk(stack)
  {
    if stack == [] then 0 else
      var f := stack[|stack| - 1];
      Work(stack[..|stack| - 1]) + (if f.checked then 1 else 2) + SizeFrom(f.node, f.childIdx)
  }

  datatype Advance =
    | Found(endpoint: Endpoint, params: seq<Capture>)
    | Descend(next: nat, child: Frame, params: seq<Capture>)
    | Exhausted

  /** `Descend` was the right thing to do at frame `f`: what it leaves to try is what was to be tried. */
  ghost predicate DescendOk(f: Frame, verb: string, all: seq<Capture>, depth: nat, next: nat, child: Frame,
                            all': seq<Capture>)
    requires f.childIdx <= |f.node.children| && depth < MAX_DEPTH - 1
  {
    && f.childIdx < next <= |f.node.children|
    && child.childIdx == 0 && !child.checked
    && Size(child.node) + SizeFrom(f.node, next) < SizeFrom(f.node, f.childIdx)
    && MatchFrom(f.node, f.childIdx, verb, f.path, all, depth)
       == var hit := Match(child.node, verb, child.path, all', depth + 1);
          if hit.Some? then hit else MatchFrom(f.node, next, verb, f.path, all, depth)
  }

  /** The loop over the remaining children of a frame, up to the next one to descend into. */
  method NextChild(f: Frame, verb: string, params: seq<Capture>, context: bool, enough: bool,
                   ghost all: seq<Capture>, ghost depth: nat)
    returns (r: Advance, ghost all': seq<Capture>)
    requires f.childIdx <= |f.node.children| && depth < MAX_DEPTH - 1 && Keeps(params, all, context, enough)
    ensures r.Found? ==>
              && MatchFrom(f.node, f.childIdx, verb, f.path, all, depth) == Some(Hit(r.endpoint, all'))
              && Keeps(r.params, all', context, enough)
    ensures r.Exhausted? ==> MatchFrom(f.node, f.childIdx, verb, f.path, all, depth).None?
    ensures r.Descend? ==>
              && DescendOk(f, verb, all, depth, r.next, r.child, all')
              && Keeps(r.params, all', context, enough) && Rollback(r.child, r.params) == params
  {
    hide Match, Next, Size, StripLeft, Keeps;
    var cs := f.node.children;
    var cut := NextSegment(f.path);
    var i := f.childIdx;
    while i < |cs|
      invariant f.childIdx <= i <= |cs|
      invariant MatchFrom(f.node, f.childIdx, verb, f.path, all, depth)
             == MatchFrom(f.node, i, verb, f.path, all, depth)
      invariant SizeFrom(f.node, i) <= SizeFrom(f.node, f.childIdx)
    {
      var child := cs[i].node;
      match cs[i].key {
        case Static(name) =>
          if cut.Some? && name == cut.value.segment {
            return Descend(i + 1, Fresh(child, cut.value.rest, |params|, false), params), all;
          }
        case Param(name) =>
          if cut.Some? {
            var params' := CaptureParam(params, Capture(name, cut.value.segment), context, enough, all);
            var frame := Fresh(child, cut.value.rest, |params|, |params'| > |params|);
            return Descend(i + 1, frame, params'), all + [Capture(name, cut.value.segment)];
          }
        case Wild(name) =>
          var c := Capture(name, StripLeft(f.path));
          var params' := CaptureParam(params, c, context, enough, all);
          if verb in child.handlers {
            return Found(child.handlers[verb], params'), all + [c];
          }
      }
      i := i + 1;
    }
    return Exhausted, [];
  }

  lemma ResumePop(stack: seq<Frame>, alls: seq<seq<Capture>>, f: Frame, all: seq<Capture>, verb: string)
    requires f.childIdx <= |f.node.children| && |stack| < MAX_DEPTH && |alls| == |stack|
    requires StackOk(stack + [f]) && Continue(f, verb, all, |stack|).None?
    ensures StackOk(stack) && Resume(stack + [f], alls + [all], verb) == Resume(stack, alls, verb)
    ensures Work(stack) < Work(stack + [f])
  {
    hide Continue;
    assert (stack + [f])[..|stack|] == stack && (alls + [all])[..|alls|] == alls;
    forall i | 0 <= i < |stack| ensures stack[i].childIdx <= |stack[i].node.children| {
      assert stack[i] == (stack + [f])[i];
    }
  }

  /** Pushing a child changes nothing about what will be found. */
  lemma ResumePush(stack: seq<Frame>, alls: seq<seq<Capture>>, f: Frame, all: seq<Capture>, verb: string,
                   next: nat, child: Frame, all': seq<Capture>)
    requires f.childIdx <= |f.node.children| && |stack| < MAX_DEPTH - 1 && |alls| == |stack|
    requires StackOk(stack + [f])
    requires f.checked || !(AtEnd(f.path) && verb in f.node.handlers)
    requires DescendOk(f, verb, all, |stack|, next, child, all')
    ensures var stack', alls' := stack + [f.(childIdx := next, checked := true), child], alls + [all, all'];
            && StackOk(stack')
            && Resume(stack', alls', verb) == Resume(stack + [f], alls + [all], verb)
            && Work(stack') < Work(stack + [f])
  {
    hide MatchFrom, SizeFrom, AtEnd;
    var f' := f.(childIdx := next, checked := true);
    var stack', alls' := stack + [f', child], alls + [all, all'];
    assert forall i :: 0 <= i < |stack| ==> stack[i] == (stack + [f])[i];
    assert (stack + [f])[..|stack|] == stack && (alls + [all])[..|alls|] == alls;
    assert stack'[..|stack| + 1] == stack + [f'] && (stack + [f'])[..|stack|] == stack;
    assert alls'[..|alls| + 1] == alls + [all];
    FreshContinues(child, verb, all', |stack| + 1);
  }

  lemma FreshContinues(child: Frame, verb: string, all: seq<Capture>, depth: nat)
    requires child.childIdx == 0 && !child.checked && depth < MAX_DEPTH
    ensures Continue(child, verb, all, depth) == Match(child.node, verb, child.path, all, depth)
    ensures Size(child.node) == 2 + SizeFrom(child.node, 0)
  {
  }

  /** The state of the search: what the stack still finds is `target`. */
  ghost predicate Searching(stack: seq<Frame>, alls: seq<seq<Capture>>, kept: seq<seq<Capture>>, params: seq<Capture>,
                            verb: string, target: Option<Hit>, context: bool, enough: bool)
  {
    && StackOk(stack) && Restores(stack, alls, kept, context, enough)
    && params == (if stack == [] then [] else kept[|kept| - 1])
    && Resume(stack, alls, verb) == target
  }

  /** What is known of the top frame. */
  lemma SearchingTop(stack: seq<Frame>, alls: seq<seq<Capture>>, kept: seq<seq<Capture>>, params: seq<Capture>,
                     verb: string, target: Option<Hit>, context: bool, enough: bool)
    requires Searching(stack, alls, kept, params, verb, target, context, enough) && stack != []
    ensures |stack| == |alls| <= MAX_DEPTH
    ensures var d := |stack| - 1;
            && stack[d].childIdx <= |stack[d].node.children|
            && Keeps(params, alls[d], context, enough)
            && (Continue(stack[d], verb, alls[d], d).Some? ==> target == Continue(stack[d], verb, alls[d], d))
  {
    hide Continue, Keeps, Rollback;
  }

  /** Giving up the top frame. */
  lemma SearchingPop(stack: seq<Frame>, alls: seq<seq<Capture>>, kept: seq<seq<Capture>>, params: seq<Capture>,
                     verb: string, target: Option<Hit>, context: bool, enough: bool)
    requires Searching(stack, alls, kept, params, verb, target, context, enough) && stack != []
    requires var d := |stack| - 1;
             && |stack| == |alls| <= MAX_DEPTH && stack[d].childIdx <= |stack[d].node.children|
             && Continue(stack[d], verb, alls[d], d).None?
    ensures var d := |stack| - 1;
            && |kept| == |stack| && StackOk(stack) && StackOk(stack[..d]) && Work(stack[..d]) < Work(stack)
            && Searching(stack[..d], alls[..d], kept[..d], Rollback(stack[d], params), verb, target, context, enough)
  {
    hide Continue, Keeps, Rollback, Restores, Resume, Work;
    var d := |stack| - 1;
    assert stack == stack[..d] + [stack[d]] && alls == alls[..d] + [alls[d]];
    RestoresPop(stack[..d], stack[d], alls, kept, context, enough);
    ResumePop(stack[..d], alls[..d], stack[d], alls[d], verb);
  }

  /** Pushing a child on the top frame. */
  lemma SearchingPush(stack: seq<Frame>, alls: seq<seq<Capture>>, kept: seq<seq<Capture>>, params: seq<Capture>,
                      verb: string, target: Option<Hit>, context: bool, enough: bool,
                      next: nat, child: Frame, params': seq<Capture>, all': seq<Capture>)
    requires Searching(stack, alls, kept, params, verb, target, context, enough) && stack != []
    requires |stack| == |alls| < MAX_DEPTH
    requires var f := stack[|stack| - 1];
             && f.childIdx <= |f.node.children|
             && (f.checked || !(AtEnd(f.path) && verb in f.node.handlers))
             && DescendOk(f, verb, alls[|stack| - 1], |stack| - 1, next, child, all')
    requires Keeps(params', all', context, enough) && Rollback(child, params') == params
    ensures var d := |stack| - 1;
            var stack' := stack[..d] + [stack[d].(childIdx := next, checked := true), child];
            && StackOk(stack) && StackOk(stack') && Work(stack') < Work(stack)
            && Searching(stack', alls + [all'], kept + [params'], params', verb, target, context, enough)
  {
    hide DescendOk, Keeps, Rollback, Restores, Resume, Work, AtEnd;
    var d := |stack| - 1;
    assert stack == stack[..d] + [stack[d]] && alls == alls[..d] + [alls[d]];
    assert alls[..d] + [alls[d], all'] == alls + [all'];
    RestoresPop(stack[..d], stack[d], alls, kept, context, enough);
    ResumePush(stack[..d], alls[..d], stack[d], alls[d], verb, next, child, all');
    RestoresPush(stack[..d], alls, kept, stack[d], next, child, all', params', context, enough);
  }

  /**
   `match_node`: the iterative search with backtracking finds what the recursive one finds, whether there
   is a context or not and whatever captures fail; the context then keeps the captures of that match, and
   nothing of the attempts that were given up.
   */
  method MatchNode(root: Node, verb: string, path: string, context: bool, enough: bool)
    returns (endpoint: Option<Endpoint>, params: seq<Capture>)
    ensures match Match(root, verb, path, [], 0)
            case None => endpoint == None && params == []
            case Some(hit) => endpoint == Some(hit.endpoint) && Keeps(params, hit.params, context, enough)
  {
    hide Searching, Continue, Match, Work, MatchFrom, Rollback, Keeps, DescendOk;
    params := [];
    var stack := [Fresh(root, path, 0, false)];
    ghost var alls, kept := [[]], [[]];
    ghost var target := Match(root, verb, path, [], 0);
    SearchingStart(root, verb, path, context, enough);
    while stack != []
      invariant StackOk(stack) && Searching(stack, alls, kept, params, verb, target, context, enough)
      decreases Work(stack)
    {
      var depth := |stack| - 1;
      var frame := stack[depth];
      SearchingTop(stack, alls, kept, params, verb, target, context, enough);
      if !frame.checked && AtEnd(frame.path) && verb in frame.node.handlers {
        ContinueIfTerminal(frame, verb, alls[depth], depth);
        return Some(frame.node.handlers[verb]), params;
      }
      ContinueUnlessTerminal(frame, verb, alls[depth], depth);
      if depth >= MAX_DEPTH - 1 {
        SearchingPop(stack, alls, kept, params, verb, target, context, enough);
        stack, params, alls, kept := stack[..depth], Rollback(frame, params), alls[..depth], kept[..depth];
        continue;
      }
      var r, all' := NextChild(frame, verb, params, context, enough, alls[depth], depth);
      match r {
        case Found(h, found) =>
          return Some(h), found;
        case Descend(next, child, params') =>
          SearchingPush(stack, alls, kept, params, verb, target, context, enough, next, child, params', all');
          stack := stack[..depth] + [frame.(childIdx := next, checked := true), child];
          params, alls, kept := params', alls + [all'], kept + [params'];
        case Exhausted =>
          SearchingPop(stack, alls, kept, params, verb, target, context, enough);
          stack, params, alls, kept := stack[..depth], Rollback(frame, params), alls[..depth], kept[..depth];
      }
    }
    NothingLeft(alls, kept, params, verb, target, context, enough);
    return None, params;
  }

  lemma RestoresPop(below: seq<Frame>, f: Frame, alls: seq<seq<Capture>>, kept: seq<seq<Capture>>,
                    context: bool, enough: bool)
    requires Restores(below + [f], alls, kept, context, enough)
    ensures |alls| == |kept| == |below| + 1
    ensures Restores(below, alls[..|below|], kept[..|below|], context, enough)
    ensures Keeps(kept[|below|], alls[|below|], context, enough)
    ensures Rollback(f, kept[|below|]) == if below == [] then [] else kept[|below| - 1]
  {
    hide Keeps, Rollback;
    var stack := below + [f];
    assert stack[|below|] == f && (below != [] ==> stack[0] == below[0]);
    forall d | 0 < d < |below| ensures Rollback(below[d], kept[d]) == kept[d - 1] {
      assert stack[d] == below[d];
    }
  }

  lemma RestoresPush(below: seq<Frame>, alls: seq<seq<Capture>>, kept: seq<seq<Capture>>, f: Frame, next: nat,
                     child: Frame, all': seq<Capture>, params': seq<Capture>, context: bool, enough: bool)
    requires |kept| == |below| + 1 && Restores(below + [f], alls, kept, context, enough)
    requires Keeps(params', all', context, enough) && Rollback(child, params') == kept[|below|]
    ensures Restores(below + [f.(childIdx := next, checked := true), child], alls + [all'], kept + [params'],
                     context, enough)
  {
    hide Keeps;
    RollbackIgnoresProgress(f, next);
    var stack, stack' := below + [f], below + [f.(childIdx := next, checked := true), child];
    var alls', kept' := alls + [all'], kept + [params'];
    forall d | 0 < d < |stack'| ensures Rollback(stack'[d], kept'[d]) == kept'[d - 1] {
      if d < |stack| {
        assert Rollback(stack[d], kept[d]) == kept[d - 1];
      }
    }
  }

  lemma RollbackIgnoresProgress(f: Frame, next: nat)
    ensures forall params :: Rollback(f.(childIdx := next, checked := true), params) == Rollback(f, params)
  {
  }

  lemma SearchingStart(root: Node, verb: string, path: string, context: bool, enough: bool)
    ensures var stack := [Fresh(root, path, 0, false)];
            && StackOk(stack)
            && Searching(stack, [[]], [[]], [], verb, Match(root, verb, path, [], 0), context, enough)
  {
    var stack := [Fresh(root, path, 0, false)];
    FreshContinues(stack[0], verb, [], 0);
    assert stack[..0] == [];
  }

  lemma NothingLeft(alls: seq<seq<Capture>>, kept: seq<seq<Capture>>, params: seq<Capture>,
                    verb: string, target: Option<Hit>, context: bool, enough: bool)
    requires Searching([], alls, kept, params, verb, target, context, enough)
    ensures target.None? && params == []
  {
  }

  lemma ContinueIfTerminal(f: Frame, verb: string, all: seq<Capture>, depth: nat)
    requires f.childIdx <= |f.node.children| && depth < MAX_DEPTH
    requires !f.checked && AtEnd(f.path) && verb in f.node.handlers
    ensures Continue(f, verb, all, depth) == Some(Hit(f.node.handlers[verb], all))
  {
  }

  lemma ContinueUnlessTerminal(f: Frame, verb: string, all: seq<Capture>, depth: nat)
    requires f.childIdx <= |f.node.children| && depth < MAX_DEPTH
    requires f.checked || !(AtEnd(f.path) && verb in f.node.handlers)
    ensures depth >= MAX_DEPTH - 1 ==> Continue(f, verb, all, depth).None?
    ensures depth < MAX_DEPTH - 1 ==>
              Continue(f, verb, all, depth) == MatchFrom(f.node, f.childIdx, verb, f.path, all, depth)
  {
  }

  /**
   A request on a router that holds some routes, in whatever run it was built: the endpoint registered
   first under the least pattern that accepts the path, with that pattern's captures; or nothing, and no
   parameter, exactly when no pattern of fewer than 64 keys accepts it.
   */
  method RouteRequest(root: Node, ghost routes: seq<Route>, verb: string, path: string, context: bool, enough: bool)
    returns (endpoint: Option<Endpoint>, params: seq<Capture>, ghost p: seq<Key>)
    requires Holds(root, routes)
    ensures endpoint.None? <==>
              forall q :: FirstRegistered(routes, q, verb).Some? && Accepts(q, path) ==> |q| >= 64
    ensures endpoint.None? ==> params == []
    ensures endpoint.Some? ==>
              && FirstRegistered(routes, p, verb) == endpoint && Accepts(p, path) && |p| < 64
              && Keeps(params, Captures(p, path, []), context, enough)
              && (forall q :: FirstRegistered(routes, q, verb).Some? && Accepts(q, path) && |q| < 64
                    ==> PatternLeq(p, q))
  {
    hide Match, Holds, FirstRegistered, Accepts, Captures, PatternLeq, Keeps;
    endpoint, params := MatchNode(root, verb, path, context, enough);
    p := RoutingIsLeastPattern(root, routes, verb, path);
  }
}
