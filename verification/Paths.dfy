/** Joining URL path components, after `join_path` in `src/app/group.c:81-119`. */
module Paths {
  import opened Wrappers

  function StripRight(s: string): (t: string)
    ensures |t| <= |s|
    ensures t == "" || t[|t| - 1] != '/'
  {
    if s != "" && s[|s| - 1] == '/' then StripRight(s[..|s| - 1]) else s
  }

  function StripLeft(s: string): (t: string)
    ensures |t| <= |s|
    ensures t == "" || t[0] != '/'
  {
    if s != "" && s[0] == '/' then StripLeft(s[1..]) else s
  }

  /** Two components with exactly one slash between them; an empty component adds nothing. */
  function Join(a: string, b: string): string {
    if a == "" then b else if b == "" then a else StripRight(a) + "/" + StripLeft(b)
  }

  //////////////////////////////////////////////////////////////////////////////
  // Joining is a monoid
  //////////////////////////////////////////////////////////////////////////////

  predicate AllSlashes(s: string) {
    forall i :: 0 <= i < |s| ==> s[i] == '/'
  }

  lemma {:induction false} StripRightOfAppend(s: string, t: string)
    ensures StripRight(s + t) == if AllSlashes(t) then StripRight(s) else s + StripRight(t)
  {
    if t == "" {
      assert s + t == s;
    } else if t[|t| - 1] == '/' {
      var k := |t| - 1;
      assert (s + t)[..|s| + k] == s + t[..k];
      StripRightOfAppend(s, t[..k]);
      assert t == t[..k] + ['/'];
    }
  }

  lemma {:induction false} StripLeftOfAppend(s: string, t: string)
    ensures StripLeft(s + t) == if AllSlashes(s) then StripLeft(t) else StripLeft(s) + t
  {
    if s == "" {
      assert s + t == t;
    } else if s[0] == '/' {
      assert (s + t)[1..] == s[1..] + t;
      StripLeftOfAppend(s[1..], t);
      assert s == ['/'] + s[1..];
    }
  }

  lemma StripAllSlashes(s: string)
    ensures AllSlashes(s) ==> StripLeft(s) == "" && StripRight(s) == ""
  {
    StripRightOfAppend("", s);
    StripLeftOfAppend(s, "");
    assert "" + s == s && s + "" == s;
  }

  lemma {:induction false} StripsCommute(s: string)
    ensures StripLeft(StripRight(s)) == StripRight(StripLeft(s))
  {
    if AllSlashes(s) {
      StripAllSlashes(s);
    } else if s[0] == '/' {
      assert s == ['/'] + s[1..];
      StripRightOfAppend(['/'], s[1..]);
      StripsCommute(s[1..]);
      assert (['/'] + StripRight(s[1..]))[1..] == StripRight(s[1..]);
    } else {
      assert s == [s[0]] + s[1..];
      StripRightOfAppend([s[0]], s[1..]);
    }
  }

  lemma StripTwice(s: string)
    ensures StripLeft(StripLeft(s)) == StripLeft(s) && StripRight(StripRight(s)) == StripRight(s)
  {
  }

  /** The empty string is the identity and joining is associative. */
  lemma JoinIsMonoid(a: string, b: string, c: string)
    ensures Join("", a) == a && Join(a, "") == a
    ensures Join(Join(a, b), c) == Join(a, Join(b, c))
  {
    if a != "" && b != "" && c != "" {
      JoinNonEmpty(a, b, c);
    }
  }

  lemma JoinForms(a: string, b: string)
    requires a != "" && b != ""
    ensures Join(a, b) == (StripRight(a) + "/") + StripLeft(b)
    ensures Join(a, b) == StripRight(a) + ("/" + StripLeft(b))
    ensures Join(a, b) != ""
  {
  }

  lemma JoinNonEmpty(a: string, b: string, c: string)
    requires a != "" && b != "" && c != ""
    ensures Join(Join(a, b), c) == Join(a, Join(b, c))
  {
    hide Join, StripLeft, StripRight, AllSlashes;
    LeftNested(a, b, c);
    RightNested(a, b, c);
    StripsCommute(b);
    ConcatAssociates(StripRight(a) + "/", StripRight(StripLeft(b)), "/" + StripLeft(c));
  }

  lemma ConcatAssociates(x: string, y: string, z: string)
    ensures (x + y) + z == x + (y + z)
  {
  }

  lemma LeftNested(a: string, b: string, c: string)
    requires a != "" && b != "" && c != ""
    ensures var x, m, y := StripRight(a) + "/", StripRight(StripLeft(b)), "/" + StripLeft(c);
            Join(Join(a, b), c) == if AllSlashes(b) then StripRight(a) + y else (x + m) + y
  {
    hide Join, StripLeft, StripRight, AllSlashes;
    JoinForms(a, b);
    JoinForms(Join(a, b), c);
    MiddleSlashes(b);
    StripRightOfAppend(StripRight(a) + "/", StripLeft(b));
    StripRightOfAppend(StripRight(a), "/");
    StripTwice(a);
  }

  lemma RightNested(a: string, b: string, c: string)
    requires a != "" && b != "" && c != ""
    ensures var x, m, y := StripRight(a) + "/", StripLeft(StripRight(b)), "/" + StripLeft(c);
            Join(a, Join(b, c)) == if AllSlashes(b) then StripRight(a) + y else x + (m + y)
  {
    hide Join, StripLeft, StripRight, AllSlashes;
    JoinForms(b, c);
    JoinForms(a, Join(b, c));
    MiddleSlashes(b);
    StripLeftOfAppend(StripRight(b), "/" + StripLeft(c));
    StripLeftOfAppend("/", StripLeft(c));
    StripTwice(c);
  }

  lemma MiddleSlashes(b: string)
    ensures AllSlashes("/")
    ensures AllSlashes(StripLeft(b)) <==> AllSlashes(b)
    ensures AllSlashes(StripRight(b)) <==> AllSlashes(b)
    ensures AllSlashes(b) ==> StripLeft(b) == "" && StripRight(b) == ""
  {
    StripAllSlashes(b);
    if StripLeft(b) == "" {
      AllStrippedLeft(b);
    }
    if StripRight(b) == "" {
      AllStrippedRight(b);
    }
  }

  lemma {:induction false} AllStrippedLeft(s: string)
    requires StripLeft(s) == ""
    ensures AllSlashes(s)
  {
    if s != "" {
      AllStrippedLeft(s[1..]);
      forall i | 0 <= i < |s| ensures s[i] == '/' {
        if i > 0 {
          assert s[i] == s[1..][i - 1];
        }
      }
    }
  }

  lemma {:induction false} AllStrippedRight(s: string)
    requires StripRight(s) == ""
    ensures AllSlashes(s)
  {
    if s != "" {
      var k := |s| - 1;
      AllStrippedRight(s[..k]);
      forall i | 0 <= i < |s| ensures s[i] == '/' {
        if i < k {
          assert s[i] == s[..k][i];
        }
      }
    }
  }

  /** Components joined from left to right. */
  function JoinAll(ps: seq<string>): string {
    if ps == [] then "" else Join(JoinAll(ps[..|ps| - 1]), ps[|ps| - 1])
  }

  /** However a list of components is split into groups, it joins to the same path. */
  lemma {:induction false} JoinAllConcat(ps: seq<string>, qs: seq<string>)
    ensures JoinAll(ps + qs) == Join(JoinAll(ps), JoinAll(qs))
  {
    hide Join;
    if qs == [] {
      assert ps + qs == ps;
      JoinIsMonoid(JoinAll(ps), "", "");
    } else {
      var k := |qs| - 1;
      assert (ps + qs)[..|ps| + k] == ps + qs[..k];
      JoinAllConcat(ps, qs[..k]);
      JoinIsMonoid(JoinAll(ps), JoinAll(qs[..k]), qs[k]);
    }
  }

  /** Joining `a` with `b` gives `c` followed by `b` exactly if `c` is `a` stripped and `b` starts with one slash. */
  lemma JoinOfCut(a: string, c: string, b: string)
    requires a != "" && b != "" && b[0] == '/'
    ensures Join(a, b) == c + b <==> StripRight(a) == c && !(|b| > 1 && b[1] == '/')
  {
    hide StripRight;
    var l, r := StripRight(a), StripLeft(b);
    var k := LeadingSlashes(b);
    if k == 1 {
      assert "/" + b[1..] == b;
      assert Join(a, b) == l + b by { assert l + "/" + r == l + ("/" + r); }
      SameTail(l, c, b);
    } else if |l + "/" + r| == |c + b| {
      assert (l + "/" + r)[|l| - 1] == l[|l| - 1] && (c + b)[|l| - 1] == b[k - 2];
    }
  }

  lemma SameTail(l: string, c: string, b: string)
    ensures l + b == c + b <==> l == c
  {
    if l + b == c + b {
      assert l == (l + b)[..|l|] && c == (c + b)[..|c|];
    }
  }

  lemma {:induction false} LeadingSlashes(b: string) returns (k: nat)
    ensures k <= |b| && StripLeft(b) == b[k..]
    ensures forall i :: 0 <= i < k ==> b[i] == '/'
    ensures k < |b| ==> b[k] != '/'
  {
    if b != "" && b[0] == '/' {
      var k' := LeadingSlashes(b[1..]);
      k := k' + 1;
      assert forall i :: 0 < i < |b| ==> b[i] == b[1..][i - 1];
    } else {
      k := 0;
    }
  }

  /** Splitting a path in two and joining the halves gives it back exactly when no slash is doubled there. */
  lemma JoinOfSplit(a: string, b: string)
    requires a != "" && b != "" && b[0] == '/'
    ensures Join(a, b) == a + b <==> a[|a| - 1] != '/' && !(|b| > 1 && b[1] == '/')
  {
    JoinOfCut(a, a, b);
  }

  //////////////////////////////////////////////////////////////////////////////
  // The procedure
  //////////////////////////////////////////////////////////////////////////////

  /** `join_path` when a component may be NULL: a missing second one stands for "/" after an empty first one. */
  function JoinOptional(p1: Option<string>, p2: Option<string>): string {
    if p1.None? || p1.value == "" then (if p2.Some? then p2.value else "/")
    else if p2.None? then p1.value
    else Join(p1.value, p2.value)
  }

  /** Two empty components join to nothing, and not to a slash. */
  lemma EmptyJoinsToEmpty()
    ensures JoinOptional(Some(""), Some("")) == ""
  {
  }

  /** Without a first component the result is the second, or a slash if that is missing too. */
  lemma SlashIffMissing(p1: Option<string>, p2: Option<string>)
    requires p1.None? || p1.value == ""
    ensures JoinOptional(p1, p2) == "/" <==> p2.None? || p2.value == "/"
    ensures p2.Some? ==> JoinOptional(p1, p2) == p2.value
  {
  }

  /** `join_path`; `allocOk` is false when the result could not be allocated. */
  method JoinPath(p1: Option<string>, p2: Option<string>, allocOk: bool) returns (r: Option<string>)
    ensures r == if allocOk then Some(JoinOptional(p1, p2)) else None
  {
    if !allocOk {
      return None;
    }
    if p1.None? || p1.value == "" {
      return Some(if p2.Some? then p2.value else "/");
    }
    if p2.None? || p2.value == "" {
      return p1;
    }
    var a, b := p1.value, p2.value;
    var l1 := |a|;
    assert a[..l1] == a;
    while l1 > 0 && a[l1 - 1] == '/'
      invariant 0 <= l1 <= |a| && StripRight(a[..l1]) == StripRight(a)
    {
      assert a[..l1][..l1 - 1] == a[..l1 - 1];
      l1 := l1 - 1;
    }
    var start := 0;
    while start < |b| && b[start] == '/'
      invariant 0 <= start <= |b| && StripLeft(b[start..]) == StripLeft(b)
    {
      assert b[start..][1..] == b[start + 1..];
      start := start + 1;
    }
    var text := Assemble(a, l1, b, start);
    return Some(text);
  }

  /** Copies the stripped components into one buffer. */
  method Assemble(a: string, l1: nat, b: string, start: nat) returns (text: string)
    requires l1 <= |a| && start <= |b|
    ensures text == a[..l1] + "/" + b[start..]
  {
    var l2 := |b| - start;
    var res := new char[l1 + l2 + 2](_ => '\0');
    forall k | 0 <= k < l1 { res[k] := a[k]; }
    res[l1] := '/';
    forall k | 0 <= k < l2 { res[l1 + 1 + k] := b[start + k]; }
    text := res[..l1 + 1 + l2];
  }
}
