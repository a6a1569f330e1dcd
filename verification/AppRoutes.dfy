/**
 Choosing the group of a route, after `src/app/app_routes.c`.

 An application caches up to 32 groups by prefix and registers a route on the group whose prefix is the
 longest match of the route's path.
 */
module AppRoutes {
  import opened Wrappers
  import opened Paths
  import opened Groups
  import opened Sequences

  const MAX_GROUPS := 32

  /** Room for the text of a cached prefix, without its terminator. */
  const PREFIX_ROOM := 127

  /** `snprintf` into the cache entry's buffer. */
  function Truncated(s: string): (t: string)
    ensures t <= s && |t| <= PREFIX_ROOM
  {
    AtMost(s, PREFIX_ROOM)
  }

  datatype Entry = Entry(prefix: string, group: Group)

  function Prefixes(entries: seq<Entry>): (ps: seq<string>)
    ensures |ps| == |entries|
  {
    seq(|entries|, i requires 0 <= i < |entries| => entries[i].prefix)
  }

  //////////////////////////////////////////////////////////////////////////////
  // Matching
  //////////////////////////////////////////////////////////////////////////////

  /** `prefix` covers whole segments of `path`. */
  predicate Matches(prefix: string, path: string) {
    prefix != "" && prefix <= path && (|prefix| == |path| || path[|prefix|] == '/')
  }

  /** `best` is a longest match among the entries, or nothing matches. */
  ghost predicate IsLongest(entries: seq<Entry>, path: string, best: Option<Entry>) {
    match best
    case None => forall e :: e in entries ==> !Matches(e.prefix, path)
    case Some(b) =>
      && b in entries && Matches(b.prefix, path)
      && (forall e :: e in entries && Matches(e.prefix, path) ==> |e.prefix| <= |b.prefix|)
  }

  /** With distinct prefixes no other entry could have been chosen. */
  lemma LongestIsUnique(entries: seq<Entry>, path: string, a: Option<Entry>, b: Option<Entry>)
    requires NoRepeat(Prefixes(entries)) && IsLongest(entries, path, a) && IsLongest(entries, path, b)
    ensures a == b
  {
    if a.Some? && b.Some? {
      assert a.value.prefix == path[..|a.value.prefix|] == b.value.prefix;
      var i :| 0 <= i < |entries| && entries[i] == a.value;
      var j :| 0 <= j < |entries| && entries[j] == b.value;
      assert Prefixes(entries)[i] == Prefixes(entries)[j];
    }
  }

  /** The rest of a path after the chosen prefix; the whole path when no group matches. */
  function Relative(best: Option<Entry>, path: string): string
    requires best.Some? ==> |best.value.prefix| <= |path|
  {
    if best.None? then path else path[|best.value.prefix|..]
  }

  function ChosenPrefix(best: Option<Entry>): string {
    if best.None? then "" else best.value.prefix
  }

  predicate NoDoubleSlash(path: string) {
    forall i :: 0 < i < |path| ==> !(path[i - 1] == '/' && path[i] == '/')
  }

  /** Joining the chosen prefix and the rest gives the path back unless a slash is doubled at the seam. */
  lemma PathRecovered(entries: seq<Entry>, path: string, best: Option<Entry>)
    requires IsLongest(entries, path, best)
    ensures var prefix, rest := ChosenPrefix(best), Relative(best, path);
            Join(prefix, rest) == path
            <==> prefix == "" || rest == "" || (prefix[|prefix| - 1] != '/' && !(|rest| > 1 && rest[1] == '/'))
    ensures NoDoubleSlash(path) ==> Join(ChosenPrefix(best), Relative(best, path)) == path
  {
    if best.Some? {
      var prefix, rest := best.value.prefix, path[|best.value.prefix|..];
      assert prefix + rest == path;
      if rest != "" {
        JoinOfSplit(prefix, rest);
        assert rest[0] == path[|prefix|] && prefix[|prefix| - 1] == path[|prefix| - 1];
        if |rest| > 1 {
          assert rest[1] == path[|prefix| + 1];
        }
      }
    }
  }

  //////////////////////////////////////////////////////////////////////////////
  // The cache of groups over a whole run
  //////////////////////////////////////////////////////////////////////////////

  predicate IsRoot(prefix: Option<string>) {
    prefix.None? || prefix.value == "" || prefix.value == "/"
  }

  /** A request for a group; `enough` says whether there is memory to create it. */
  datatype Request = Request(prefix: Option<string>, enough: bool)

  /** The cached prefixes after one request. */
  function CacheStep(cached: seq<string>, r: Request): seq<string> {
    if IsRoot(r.prefix) || r.prefix.value in cached || |cached| >= MAX_GROUPS || !r.enough then cached
    else cached + [Truncated(r.prefix.value)]
  }

  function CacheRun(rs: seq<Request>): seq<string> {
    if rs == [] then [] else CacheStep(CacheRun(rs[..|rs| - 1]), rs[|rs| - 1])
  }

  /** What one request does, in literals. */
  lemma CacheStepByText(cached: seq<string>, p: string, enough: bool)
    ensures CacheStep(cached, Request(None, enough)) == cached
    ensures p == "" || p == "/" ==> CacheStep(cached, Request(Some(p), enough)) == cached
    ensures p != "" && p != "/" && p !in cached && |cached| < 32 && enough ==>
              CacheStep(cached, Request(Some(p), enough)) == cached + [if |p| <= 127 then p else p[..127]]
  {
  }

  predicate Asks(r: Request) {
    !IsRoot(r.prefix) && r.enough
  }

  /** What would be cached if there were no limit. */
  ghost function Wanted(rs: seq<Request>): set<string> {
    if rs == [] then {} else
      var r := rs[|rs| - 1];
      Wanted(rs[..|rs| - 1]) + if Asks(r) then {Truncated(r.prefix.value)} else {}
  }

  lemma {:induction false} WantedMember(rs: seq<Request>, w: string)
    ensures w in Wanted(rs) <==> exists r :: r in rs && Asks(r) && Truncated(r.prefix.value) == w
  {
    if rs != [] {
      var before, r := rs[..|rs| - 1], rs[|rs| - 1];
      WantedMember(before, w);
      assert forall x :: x in rs <==> x in before || x == r;
    }
  }

  /** As long as there is room, exactly what is wanted is cached. */
  lemma {:induction false} CachedIsWanted(rs: seq<Request>)
    ensures |CacheRun(rs)| <= MAX_GROUPS && forall p :: p in CacheRun(rs) ==> |p| <= PREFIX_ROOM
    ensures Elements(CacheRun(rs)) <= Wanted(rs)
    ensures |CacheRun(rs)| < MAX_GROUPS ==> Elements(CacheRun(rs)) == Wanted(rs)
  {
    if rs != [] {
      var cached, r := CacheRun(rs[..|rs| - 1]), rs[|rs| - 1];
      CachedIsWanted(rs[..|rs| - 1]);
      if CacheRun(rs) != cached {
        ElementsAppend(cached, Truncated(r.prefix.value));
      }
    }
  }

  lemma {:induction false} CacheGrows(rs: seq<Request>, k: nat)
    requires k <= |rs|
    ensures CacheRun(rs[..k]) <= CacheRun(rs)
    decreases |rs|
  {
    if k == |rs| {
      assert rs[..k] == rs;
    } else {
      CacheGrows(rs[..|rs| - 1], k);
      assert rs[..|rs| - 1][..k] == rs[..k];
    }
  }

  //////////////////////////////////////////////////////////////////////////////
  // When a prefix is cached twice
  //////////////////////////////////////////////////////////////////////////////

  /** Request `j` does not fit, asks for the same 127 characters as an earlier one, and there is still room. */
  ghost predicate Clash(rs: seq<Request>, j: nat)
    requires j < |rs|
  {
    && Asks(rs[j]) && |rs[j].prefix.value| > PREFIX_ROOM
    && Truncated(rs[j].prefix.value) in Wanted(rs[..j]) && |Wanted(rs[..j])| < MAX_GROUPS
  }

  /** Over every run, a prefix is cached twice exactly when two requests clash. */
  lemma {:induction false} NoRepeatIffNoClash(rs: seq<Request>)
    ensures NoRepeat(CacheRun(rs)) <==> forall j :: 0 <= j < |rs| ==> !Clash(rs, j)
  {
    if rs != [] {
      hide CacheStep, Clash;
      var k := |rs| - 1;
      var before := rs[..k];
      NoRepeatIffNoClash(before);
      forall j | 0 <= j < k ensures Clash(before, j) == Clash(rs, j) {
        ClashBefore(rs, j);
      }
      CacheGrows(rs, k);
      if NoRepeat(CacheRun(before)) {
        RepeatIffLastClashes(rs);
      } else {
        assert forall i :: 0 <= i < |CacheRun(before)| ==> CacheRun(rs)[i] == CacheRun(before)[i];
      }
    }
  }

  lemma ClashBefore(rs: seq<Request>, j: nat)
    requires j < |rs| - 1
    ensures Clash(rs[..|rs| - 1], j) == Clash(rs, j)
  {
    assert rs[..|rs| - 1][..j] == rs[..j];
  }

  lemma RepeatIffLastClashes(rs: seq<Request>)
    requires rs != [] && NoRepeat(CacheRun(rs[..|rs| - 1]))
    ensures NoRepeat(CacheRun(rs)) <==> !Clash(rs, |rs| - 1)
  {
    hide Wanted, Truncated;
    var before, r := rs[..|rs| - 1], rs[|rs| - 1];
    var cached := CacheRun(before);
    CachedIsWanted(before);
    CountElements(cached);
    Fewer(Elements(cached), Wanted(before));
    assert |cached| < MAX_GROUPS <==> |Wanted(before)| < MAX_GROUPS;
    if Asks(r) && r.prefix.value !in cached && |cached| < MAX_GROUPS {
      var t := Truncated(r.prefix.value);
      assert CacheRun(rs) == cached + [t];
      AppendRepeats(cached, t);
      TruncatedIfLong(r.prefix.value);
    }
  }

  lemma AppendRepeats(cached: seq<string>, t: string)
    requires NoRepeat(cached)
    ensures NoRepeat(cached + [t]) <==> t !in cached
  {
    if t in cached {
      var i :| 0 <= i < |cached| && cached[i] == t;
      assert (cached + [t])[i] == (cached + [t])[|cached|];
    }
  }

  lemma TruncatedIfLong(p: string)
    ensures |p| <= PREFIX_ROOM <==> Truncated(p) == p
  {
  }

  predicate Fits(prefix: Option<string>) {
    prefix.Some? ==> |prefix.value| <= PREFIX_ROOM
  }

  predicate AllFit(rs: seq<Request>) {
    forall i :: 0 <= i < |rs| ==> Fits(rs[i].prefix)
  }

  /** As long as all prefixes fit, no run ever caches a prefix twice or more than 32 of them. */
  lemma CacheHasNoRepeats(rs: seq<Request>)
    requires AllFit(rs)
    ensures NoRepeat(CacheRun(rs)) && |CacheRun(rs)| <= MAX_GROUPS
  {
    NoRepeatIffNoClash(rs);
    CachedIsWanted(rs);
    assert forall j :: 0 <= j < |rs| ==> Fits(rs[j].prefix);
  }

  function Repeated(c: char, n: nat): (s: string)
    ensures |s| == n
  {
    seq(n, _ => c)
  }

  /** Asking twice for one prefix of 128 characters caches it twice. */
  lemma LongPrefixCachedTwice()
    ensures var long := Request(Some(Repeated('a', 128)), true);
            !NoRepeat(CacheRun([long, long]))
  {
    var p := Repeated('a', 128);
    var long := Request(Some(p), true);
    assert [long, long][..1] == [long] && [long][..0] == [];
    assert !IsRoot(Some(p));
    assert CacheRun([long]) == [Truncated(p)];
    assert p !in [Truncated(p)];
    var cached := CacheRun([long, long]);
    assert cached == [Truncated(p), Truncated(p)];
    assert cached[0] == cached[1];
  }

  //////////////////////////////////////////////////////////////////////////////
  // When the order of the requests matters
  //////////////////////////////////////////////////////////////////////////////

  /** `best` is the longest cached prefix that matches, or none does. */
  ghost predicate Chosen(cached: seq<string>, path: string, best: Option<string>) {
    match best
    case None => forall p :: p in cached ==> !Matches(p, path)
    case Some(b) =>
      b in cached && Matches(b, path) && forall p :: p in cached && Matches(p, path) ==> |p| <= |b|
  }

  lemma {:induction false} ChoiceExists(cached: seq<string>, path: string) returns (best: Option<string>)
    ensures Chosen(cached, path, best)
  {
    if cached == [] {
      best := None;
    } else {
      var last := cached[|cached| - 1];
      best := ChoiceExists(cached[..|cached| - 1], path);
      assert forall p :: p in cached <==> p in cached[..|cached| - 1] || p == last;
      if Matches(last, path) && (best.None? || |best.value| < |last|) {
        best := Some(last);
      }
    }
  }

  lemma SameMembersSameChoice(c: seq<string>, d: seq<string>, path: string, a: Option<string>, b: Option<string>)
    requires Elements(c) == Elements(d) && Chosen(c, path, a) && Chosen(d, path, b)
    ensures a == b
  {
    assert forall p :: (p in c <==> p in Elements(c)) && (p in d <==> p in Elements(d));
    if a.Some? && b.Some? {
      assert a.value == path[..|a.value|] && b.value == path[..|b.value|];
    }
  }

  /** If all prefixes fit, everything wanted is cached exactly if there is room for it. */
  lemma AllCachedIffRoom(rs: seq<Request>)
    requires AllFit(rs)
    ensures Elements(CacheRun(rs)) == Wanted(rs) <==> |Wanted(rs)| <= MAX_GROUPS
  {
    CachedIsWanted(rs);
    CacheHasNoRepeats(rs);
    CountElements(CacheRun(rs));
    Fewer(Elements(CacheRun(rs)), Wanted(rs));
  }

  lemma ReorderedWanted(rs: seq<Request>, rs': seq<Request>)
    requires multiset(rs) == multiset(rs')
    ensures Wanted(rs) == Wanted(rs') && (AllFit(rs) ==> AllFit(rs'))
  {
    assert forall r :: r in rs <==> r in multiset(rs);
    assert forall r :: r in rs' <==> r in multiset(rs');
    forall w ensures w in Wanted(rs) <==> w in Wanted(rs') {
      WantedMember(rs, w);
      WantedMember(rs', w);
    }
    forall i | AllFit(rs) && 0 <= i < |rs'| ensures Fits(rs'[i].prefix) {
      assert rs'[i] in rs;
    }
  }

  /** The prefix chosen for every path is the same in whatever order the requests come. */
  ghost predicate OrderIrrelevant(rs: seq<Request>) {
    forall rs', path, a, b ::
      multiset(rs') == multiset(rs) && Chosen(CacheRun(rs), path, a) && Chosen(CacheRun(rs'), path, b) ==> a == b
  }

  /** The order of the requests is irrelevant exactly if at most 32 different prefixes are asked for. */
  lemma OrderIrrelevantIffRoom(rs: seq<Request>)
    requires AllFit(rs)
    ensures OrderIrrelevant(rs) <==> |Wanted(rs)| <= 32
  {
    hide CacheRun, Wanted, Chosen, Elements;
    if |Wanted(rs)| <= MAX_GROUPS {
      AllCachedIffRoom(rs);
      forall rs', path, a, b |
        multiset(rs') == multiset(rs) && Chosen(CacheRun(rs), path, a) && Chosen(CacheRun(rs'), path, b)
        ensures a == b
      {
        ReorderedWanted(rs, rs');
        AllCachedIffRoom(rs');
        SameMembersSameChoice(CacheRun(rs), CacheRun(rs'), path, a, b);
      }
    } else {
      var rs', path, a := LateRequest(rs);
      assert !OrderIrrelevant(rs);
    }
  }

  /** Without room, some request is served only if it comes earlier. */
  lemma LateRequest(rs: seq<Request>) returns (rs': seq<Request>, path: string, a: Option<string>)
    requires AllFit(rs) && |Wanted(rs)| > MAX_GROUPS
    ensures multiset(rs') == multiset(rs) && a != Some(path)
    ensures Chosen(CacheRun(rs), path, a) && Chosen(CacheRun(rs'), path, Some(path))
  {
    hide CacheRun, Wanted;
    CachedIsWanted(rs);
    AllCachedIffRoom(rs);
    path :| path in Wanted(rs) && path !in Elements(CacheRun(rs));
    WantedMember(rs, path);
    var r :| r in rs && Asks(r) && Truncated(r.prefix.value) == path;
    var k :| 0 <= k < |rs| && rs[k] == r;
    rs' := [r] + (rs[..k] + rs[k + 1..]);
    assert rs == rs[..k] + [r] + rs[k + 1..];
    a := ChoiceExists(CacheRun(rs), path);
    assert path !in CacheRun(rs);
    FirstIsCached(r, rs[..k] + rs[k + 1..]);
    assert Matches(path, path);
  }

  lemma FirstIsCached(r: Request, more: seq<Request>)
    requires Asks(r)
    ensures Truncated(r.prefix.value) in CacheRun([r] + more)
  {
    var rs := [r] + more;
    assert rs[..1] == [r] && [r][..0] == [];
    CacheGrows(rs, 1);
    assert CacheRun([r]) == [Truncated(r.prefix.value)];
    assert CacheRun(rs)[0] == CacheRun([r])[0];
  }

  /** A prefix of one character: '/0', '/1' and so on in the order of ASCII. */
  function Letter(i: nat): string
    requires i < 64
  {
    "/" + [('0' as int + i) as char]
  }

  function Ask(prefix: string): Request {
    Request(Some(prefix), true)
  }

  function Letters(n: nat): seq<Request>
    requires n < 64
  {
    if n == 0 then [] else Letters(n - 1) + [Ask(Letter(n - 1))]
  }

  lemma LettersDiffer(i: nat, j: nat)
    requires i < j < 64
    ensures Letter(i) != Letter(j)
  {
    assert Letter(i)[1] != Letter(j)[1];
  }

  lemma {:induction false} LettersCached(n: nat)
    requires n <= MAX_GROUPS
    ensures |CacheRun(Letters(n))| == n
    ensures forall i :: 0 <= i < n ==> CacheRun(Letters(n))[i] == Letter(i)
  {
    if n > 0 {
      hide CacheRun, Letter;
      LettersCached(n - 1);
      var cached := CacheRun(Letters(n - 1));
      CacheRunStep(Letters(n - 1), Ask(Letter(n - 1)));
      LetterIsPrefix(n - 1);
      forall i | 0 <= i < n - 1 ensures cached[i] != Letter(n - 1) {
        LettersDiffer(i, n - 1);
      }
      assert Letter(n - 1) !in cached;
    }
  }

  lemma LetterIsPrefix(i: nat)
    requires i < 64
    ensures !IsRoot(Some(Letter(i))) && Truncated(Letter(i)) == Letter(i)
  {
  }

  /** The last of 33 prefixes is not cached, but it is when it comes first. */
  lemma LastOf33()
    ensures var last := Letter(MAX_GROUPS);
            && last !in CacheRun(Letters(MAX_GROUPS) + [Ask(last)])
            && last in CacheRun([Ask(last)] + Letters(MAX_GROUPS))
  {
    hide CacheRun, Letters, Letter;
    var last, rs := Letter(MAX_GROUPS), Letters(MAX_GROUPS);
    LettersCached(MAX_GROUPS);
    CacheRunStep(rs, Ask(last));
    forall i | 0 <= i < MAX_GROUPS ensures CacheRun(rs)[i] != last {
      LettersDiffer(i, MAX_GROUPS);
    }
    LetterIsPrefix(MAX_GROUPS);
    FirstIsCached(Ask(last), rs);
  }

  //////////////////////////////////////////////////////////////////////////////
  // The procedures
  //////////////////////////////////////////////////////////////////////////////

  /** The routing part of `csilk_app_s`. */
  class App {
    const router: Router
    var root: Group?
    var groups: seq<Entry>

    /** All requests for a group so far. */
    ghost var requests: seq<Request>

    ghost predicate Valid()
      reads this, router, router.groups, set g | g in router.groups :: g.middlewares
    {
      && router.Valid()
      && (root != null ==> root in router.groups && root.prefix == "")
      && |groups| <= MAX_GROUPS && Prefixes(groups) == CacheRun(requests)
      && (forall e :: e in groups ==> e.group in router.groups && e.prefix == Truncated(e.group.prefix))
    }

    /** `csilk_app_new` creates the root group with an empty prefix. */
    constructor (router: Router, root: Group)
      requires router.Valid() && root in router.groups && root.prefix == ""
      ensures this.router == router && this.root == root && groups == [] && requests == [] && Valid()
    {
      this.router, this.root := router, root;
      groups, requests := [], [];
    }

    /** The root group, created if it does not exist yet. */
    method EnsureRoot(allocOk: bool)
      requires Valid()
      modifies this`root, router
      ensures Valid() && groups == old(groups) && requests == old(requests)
      ensures root != null <==> old(root) != null || allocOk
      ensures old(root) != null ==> root == old(root)
    {
      if root == null {
        root := router.NewGroup(Some(""), allocOk);
      }
    }

    /** `find_or_create_group`. */
    method FindOrCreate(prefix: Option<string>, rootOk: bool, groupOk: bool) returns (g: Group?)
      requires Valid()
      modifies this, router
      ensures Valid()
      ensures g != null ==> g in router.groups
      ensures requests == old(requests) + [Request(prefix, groupOk)]
      ensures Prefixes(groups) == CacheStep(old(Prefixes(groups)), Request(prefix, groupOk))
      ensures prefix == None || prefix.value == "" || prefix.value == "/" ==>
                g == root && groups == old(groups) && (g != null <==> old(root) != null || rootOk)
      ensures !IsRoot(prefix) ==>
                (g != null <==> prefix.value in old(Prefixes(groups)) || (old(|groups|) < MAX_GROUPS && groupOk))
      ensures !IsRoot(prefix) && g != null ==>
                exists e :: e in groups && e.group == g && e.prefix == Truncated(prefix.value)
      ensures !IsRoot(prefix) && g != null ==> Truncated(g.prefix) == Truncated(prefix.value)
      ensures old(groups) <= groups
    {
      hide CacheRun;
      ghost var r := Request(prefix, groupOk);
      CacheRunStep(requests, r);
      if IsRoot(prefix) {
        EnsureRoot(rootOk);
        requests := requests + [r];
        return root;
      }
      var p := prefix.value;
      var i := 0;
      while i < |groups|
        invariant 0 <= i <= |groups| && forall k :: 0 <= k < i ==> groups[k].prefix != p
      {
        if groups[i].prefix == p {
          assert Prefixes(groups)[i] == p;
          assert groups[i] in groups;
          requests := requests + [r];
          return groups[i].group;
        }
        i := i + 1;
      }
      assert p !in Prefixes(groups);
      if |groups| >= MAX_GROUPS {
        requests := requests + [r];
        return null;
      }
      g := CreateGroup(p, rootOk, groupOk);
      requests := requests + [r];
      if g == null {
        return null;
      }
      var entry := Entry(Truncated(p), g);
      groups := groups + [entry];
      assert entry in groups;
      assert Prefixes(groups) == Prefixes(old(groups)) + [Truncated(p)];
    }

    /** The creation of a group that is not cached: below the root if there is one. */
    method CreateGroup(p: string, rootOk: bool, groupOk: bool) returns (g: Group?)
      requires Valid()
      modifies this`root, router
      ensures Valid() && groups == old(groups) && requests == old(requests)
      ensures g != null <==> groupOk
      ensures g != null ==> g in router.groups && g.prefix == p
    {
      EnsureRoot(rootOk);
      if root != null {
        g := router.SubGroup(root, Some(p), groupOk);
      } else {
        g := router.NewGroup(Some(p), groupOk);
      }
    }

    /** `find_matching_group_for_path`. */
    method FindMatching(path: string) returns (g: Group?, relative: string, best: Option<Entry>)
      requires Valid()
      ensures IsLongest(groups, path, best) && Chosen(CacheRun(requests), path, PrefixOf(best))
      ensures AllFit(requests) ==> forall b :: IsLongest(groups, path, b) ==> b == best
      ensures g == if best.None? then root else best.value.group
      ensures relative == Relative(best, path)
    {
      hide IsLongest, CacheRun;
      g, relative, best := root, path, None;
      var bestLen := 0;
      var i := 0;
      NothingIsLongest(groups[..0], path);
      while i < |groups|
        invariant 0 <= i <= |groups|
        invariant IsLongest(groups[..i], path, best)
        invariant g == if best.None? then root else best.value.group
        invariant bestLen == |ChosenPrefix(best)| <= |path| && relative == path[bestLen..]
      {
        var prefix := groups[i].prefix;
        var n := |prefix|;
        assert groups[..i + 1] == groups[..i] + [groups[i]];
        LongestStep(groups[..i], groups[i], path, best);
        if n > bestLen && n <= |path| && path[..n] == prefix {
          if n == |path| || path[n] == '/' {
            g := groups[i].group;
            bestLen := n;
            relative := path[n..];
            best := Some(groups[i]);
          }
        }
        i := i + 1;
      }
      assert groups[..i] == groups;
      LongestIsChosen(groups, path, best);
      if AllFit(requests) {
        CacheHasNoRepeats(requests);
        forall b | IsLongest(groups, path, b) ensures b == best {
          LongestIsUnique(groups, path, best, b);
        }
      }
    }

    /**
     `csilk_app_add_handlers`, which also serves the other `csilk_app_add_*` functions. A route is
     registered with the chain of the group chosen for it, under that group's prefix joined with the
     rest of the path; the contract says when this is the path again.
     */
    method AddRoute(verb: string, path: string, handlers: seq<Handler>, enough: bool, routerOk: bool)
      returns (r: int, ghost best: Option<Entry>)
      requires Valid()
      modifies router
      ensures Valid() && root == old(root) && groups == old(groups) && requests == old(requests)
      ensures router.groups == old(router.groups)
      ensures IsLongest(groups, path, best)
      ensures r != 0 ==> router.state == old(router.state)
      ensures root != null && handlers != [] && enough && routerOk ==> r == 0
      ensures r == 0 ==>
                var g := if best.None? then root else best.value.group;
                var rest := Relative(best, path);
                && g != null && g in router.groups
                && router.routes == old(router.routes)
                   + [Route(verb, Join(g.prefix, rest), Chain(old(router.state), g.id) + handlers)]
                && (Join(g.prefix, rest) == path <==> best.None? || Recovers(g.prefix, rest))
                && (NoDoubleSlash(path) && |g.prefix| <= PREFIX_ROOM ==> Join(g.prefix, rest) == path)
    {
      hide Join, Chain, Step, Forest.Valid, CacheRun, Recovers, Chosen, AllFit, NoDoubleSlash, Truncated;
      var g, relative;
      g, relative, best := FindMatching(path);
      r := -1;
      if g == null || handlers == [] {
        return;
      }
      assert router.Represents(g.id);
      StepFailed(router.state, Add(g.id, verb, Some(relative), handlers));
      StepAdd(router.state, g.id, verb, Some(relative), handlers);
      JoinOptionalIsJoin(g.prefix, relative);
      TruncatedIfLong(g.prefix);
      PathRecovered(groups, path, best);
      if best.Some? {
        RegisteredPath(g.prefix, path);
      } else {
        JoinWithNothing(path);
      }
      r := router.AddHandlers(g, verb, Some(relative), handlers, enough, routerOk);
    }
  }

  function PrefixOf(best: Option<Entry>): Option<string> {
    if best.None? then None else Some(best.value.prefix)
  }

  lemma JoinWithNothing(path: string)
    ensures Join("", path) == path
  {
  }

  /**
   Joining a group's whole prefix with the rest after its cached one gives the path again: the prefix
   was not cut, and ends without a slash unless nothing follows.
   */
  predicate Recovers(prefix: string, rest: string) {
    if rest == "" then |prefix| <= PREFIX_ROOM
    else StripRight(prefix) == Truncated(prefix) && !(|rest| > 1 && rest[1] == '/')
  }

  lemma RegisteredPath(prefix: string, path: string)
    requires Matches(Truncated(prefix), path)
    ensures var rest := path[|Truncated(prefix)|..];
            Join(prefix, rest) == path <==> Recovers(prefix, rest)
  {
    var c := Truncated(prefix);
    var rest := path[|c|..];
    assert path == c + rest;
    if rest == "" {
      assert Join(prefix, rest) == prefix;
    } else {
      assert rest[0] == path[|c|];
      JoinOfCut(prefix, c, rest);
    }
  }

  lemma CacheRunStep(rs: seq<Request>, r: Request)
    ensures CacheRun(rs + [r]) == CacheStep(CacheRun(rs), r)
  {
    assert (rs + [r])[..|rs|] == rs;
  }

  lemma NothingIsLongest(entries: seq<Entry>, path: string)
    requires entries == []
    ensures IsLongest(entries, path, None)
  {
  }

  lemma LongestStep(entries: seq<Entry>, e: Entry, path: string, best: Option<Entry>)
    requires IsLongest(entries, path, best)
    ensures IsLongest(entries + [e], path,
                      if Matches(e.prefix, path) && |e.prefix| > |ChosenPrefix(best)| then Some(e) else best)
  {
    assert forall x :: x in entries + [e] <==> x in entries || x == e;
  }

  lemma LongestIsChosen(entries: seq<Entry>, path: string, best: Option<Entry>)
    requires IsLongest(entries, path, best)
    ensures Chosen(Prefixes(entries), path, PrefixOf(best))
  {
    var ps := Prefixes(entries);
    forall p | p in ps ensures exists e :: e in entries && e.prefix == p {
      var i :| 0 <= i < |ps| && ps[i] == p;
      assert entries[i] in entries;
    }
    if best.Some? {
      var i :| 0 <= i < |entries| && entries[i] == best.value;
      assert ps[i] == best.value.prefix;
    }
  }
}
