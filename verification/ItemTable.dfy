/**
 The item table behind `examples/basic/example_rest_api.c`.

 Items live in a fixed array; deleting one moves the last item into its place. Listing filters the
 array and returns one page of the result.
 */
module ItemTable {
  import opened Wrappers
  import opened Sequences

  const MAX_ITEMS := 100

  const TEXT_MAX := 127

  datatype Item = Item(id: int, name: string, email: string, active: bool)

  datatype Op =
    | Create(name: string, email: string)
    | Update(id: int, newName: Option<string>, newEmail: Option<string>)
    | Delete(id: int)
    | Toggle(id: int)

  //////////////////////////////////////////////////////////////////////////////
  // The table as a map from identifiers
  //////////////////////////////////////////////////////////////////////////////

  datatype Store = Store(items: map<int, Item>, next: int)

  function Updated(item: Item, name: Option<string>, email: Option<string>): Item {
    item.(name := if name.Some? then AtMost(name.value, TEXT_MAX) else item.name,
          email := if email.Some? then AtMost(email.value, TEXT_MAX) else item.email)
  }

  predicate Rejected(count: nat, name: string, email: string) {
    count >= MAX_ITEMS || name == "" || email == ""
  }

  function StoreStep(s: Store, op: Op): Store {
    match op
    case Create(name, email) =>
      if Rejected(|s.items|, name, email) then s
      else Store(s.items[s.next := Item(s.next, AtMost(name, TEXT_MAX), AtMost(email, TEXT_MAX), true)], s.next + 1)
    case Update(id, name, email) =>
      if id in s.items then s.(items := s.items[id := Updated(s.items[id], name, email)]) else s
    case Delete(id) => s.(items := s.items - {id})
    case Toggle(id) =>
      if id in s.items then s.(items := s.items[id := s.items[id].(active := !s.items[id].active)]) else s
  }

  /** What the operations leave of an item, field by field. */
  lemma StoredFields(s: Store, id: int, name: string, email: string)
    requires id in s.items
    ensures var item := s.items[id];
            && StoreStep(s, Update(id, Some(name), None)).items[id].name == AtMost(name, 127)
            && StoreStep(s, Update(id, Some(name), None)).items[id].email == item.email
            && StoreStep(s, Update(id, None, Some(email))).items[id].name == item.name
            && StoreStep(s, Update(id, None, Some(email))).items[id].email == AtMost(email, 127)
            && StoreStep(s, Update(id, Some(name), Some(email))).items[id]
               == Item(item.id, AtMost(name, 127), AtMost(email, 127), item.active)
            && StoreStep(s, Toggle(id)).items[id] == Item(item.id, item.name, item.email, !item.active)
            && id !in StoreStep(s, Delete(id)).items
    ensures |s.items| < 100 && name != "" && email != "" ==>
              StoreStep(s, Create(name, email)).items[s.next]
              == Item(s.next, AtMost(name, 127), AtMost(email, 127), true)
    ensures |s.items| >= 100 || name == "" || email == "" ==> StoreStep(s, Create(name, email)) == s
  {
  }

  //////////////////////////////////////////////////////////////////////////////
  // The table as the array keeps it
  //////////////////////////////////////////////////////////////////////////////

  datatype Table = Table(items: seq<Item>, next: int)

  /** The first item with the identifier, or the length. */
  function Find(items: seq<Item>, id: int): (k: nat)
    ensures k <= |items| && (k < |items| ==> items[k].id == id)
    ensures forall i :: 0 <= i < k ==> items[i].id != id
  {
    if items == [] || items[0].id == id then 0
    else
      var k := Find(items[1..], id);
      assert forall i :: 0 < i < |items| ==> items[i] == items[1..][i - 1];
      k + 1
  }

  function Step(t: Table, op: Op): Table {
    match op
    case Create(name, email) =>
      if Rejected(|t.items|, name, email) then t
      else Table(t.items + [Item(t.next, AtMost(name, TEXT_MAX), AtMost(email, TEXT_MAX), true)], t.next + 1)
    case Update(id, name, email) =>
      var k := Find(t.items, id);
      if k < |t.items| then t.(items := t.items[k := Updated(t.items[k], name, email)]) else t
    case Delete(id) =>
      var k, last := Find(t.items, id), |t.items| - 1;
      if k < |t.items| then t.(items := t.items[k := t.items[last]][..last]) else t
    case Toggle(id) =>
      var k := Find(t.items, id);
      if k < |t.items| then t.(items := t.items[k := t.items[k].(active := !t.items[k].active)]) else t
  }

  function Run(t: Table, ops: seq<Op>): Table {
    if ops == [] then t else Step(Run(t, ops[..|ops| - 1]), ops[|ops| - 1])
  }

  function StoreRun(s: Store, ops: seq<Op>): Store {
    if ops == [] then s else StoreStep(StoreRun(s, ops[..|ops| - 1]), ops[|ops| - 1])
  }

  ghost predicate Distinct(items: seq<Item>) {
    forall i, j :: 0 <= i < j < |items| ==> items[i].id != items[j].id
  }

  /** Same items under the same identifiers, all below the next one. */
  ghost predicate Represents(t: Table, s: Store) {
    && t.next == s.next && Distinct(t.items)
    && (forall i :: 0 <= i < |t.items| ==> t.items[i].id < t.next)
    && (forall i :: 0 <= i < |t.items| ==> t.items[i].id in s.items && s.items[t.items[i].id] == t.items[i])
    && (forall id :: id in s.items ==> Find(t.items, id) < |t.items|)
  }

  lemma {:induction false} SameSize(items: seq<Item>, m: map<int, Item>)
    requires Distinct(items)
    requires forall i :: 0 <= i < |items| ==> items[i].id in m
    requires forall id :: id in m ==> Find(items, id) < |items|
    ensures |m| == |items|
  {
    hide Find;
    if items == [] {
      forall id ensures id !in m {
        assert id in m ==> Find(items, id) < 0;
      }
      assert m.Keys == {};
    } else {
      var last := |items| - 1;
      var m' := m - {items[last].id};
      forall id | id in m' ensures Find(items[..last], id) < last {
        assert items[..last][Find(items, id)].id == id;
      }
      SameSize(items[..last], m');
      assert m.Keys == m'.Keys + {items[last].id};
      assert |m.Keys| == |m'.Keys| + 1;
    }
  }

  /** Every run of the array does what the map does: identifiers stay distinct and are never given twice. */
  lemma {:induction false} RunIsMap(t: Table, s: Store, ops: seq<Op>)
    requires Represents(t, s)
    ensures Represents(Run(t, ops), StoreRun(s, ops))
  {
    if ops != [] {
      RunIsMap(t, s, ops[..|ops| - 1]);
      StepIsMap(Run(t, ops[..|ops| - 1]), StoreRun(s, ops[..|ops| - 1]), ops[|ops| - 1]);
    }
  }

  /** From the empty table on. */
  lemma EveryRun(ops: seq<Op>)
    ensures Represents(Run(Table([], 1), ops), StoreRun(Store(map[], 1), ops))
  {
    RunIsMap(Table([], 1), Store(map[], 1), ops);
  }

  lemma StepIsMap(t: Table, s: Store, op: Op)
    requires Represents(t, s)
    ensures Represents(Step(t, op), StoreStep(s, op))
  {
    match op {
      case Create(_, _) => CreateIsMap(t, s, op);
      case Update(id, _, _) => ReplaceIsMap(t, s, op);
      case Delete(id) => DeleteIsMap(t, s, id);
      case Toggle(id) => ReplaceIsMap(t, s, op);
    }
  }

  lemma CreateIsMap(t: Table, s: Store, op: Op)
    requires Represents(t, s) && op.Create?
    ensures Represents(Step(t, op), StoreStep(s, op))
  {
    SameSize(t.items, s.items);
    if !Rejected(|t.items|, op.name, op.email) {
      AppendIsMap(t, s, Item(t.next, AtMost(op.name, TEXT_MAX), AtMost(op.email, TEXT_MAX), true));
    }
  }

  lemma AppendIsMap(t: Table, s: Store, item: Item)
    requires Represents(t, s) && item.id == t.next
    ensures Represents(Table(t.items + [item], t.next + 1), Store(s.items[t.next := item], s.next + 1))
  {
    hide Find;
    var items := t.items + [item];
    forall id | id in s.items[t.next := item] ensures Find(items, id) < |items| {
      if id == t.next {
        assert items[|t.items|].id == id;
      } else {
        assert items[Find(t.items, id)].id == id;
      }
    }
  }

  lemma ReplaceIsMap(t: Table, s: Store, op: Op)
    requires Represents(t, s) && (op.Update? || op.Toggle?)
    ensures Represents(Step(t, op), StoreStep(s, op))
  {
    hide Find, AtMost;
    var k := Find(t.items, op.id);
    if k < |t.items| {
      var item := t.items[k];
      var item' := if op.Toggle? then item.(active := !item.active) else Updated(item, op.newName, op.newEmail);
      RewriteIsMap(t, s, k, item');
    }
  }

  lemma RewriteIsMap(t: Table, s: Store, k: nat, item: Item)
    requires Represents(t, s) && k < |t.items| && item.id == t.items[k].id
    ensures Represents(t.(items := t.items[k := item]), s.(items := s.items[item.id := item]))
  {
    hide Find;
    var items := t.items[k := item];
    assert forall i :: 0 <= i < |items| ==> items[i].id == t.items[i].id;
    forall id | id in s.items ensures Find(items, id) < |items| {
      assert items[Find(t.items, id)].id == id;
    }
  }

  lemma DeleteIsMap(t: Table, s: Store, id: int)
    requires Represents(t, s)
    ensures Represents(Step(t, Delete(id)), StoreStep(s, Delete(id)))
  {
    hide Find;
    var k, last := Find(t.items, id), |t.items| - 1;
    if k < |t.items| {
      SwapIsMap(t, s, k);
    } else {
      assert s.items - {id} == s.items;
    }
  }

  lemma DistinctAt(items: seq<Item>, k: nat)
    requires Distinct(items) && k < |items|
    ensures forall i :: 0 <= i < |items| && i != k ==> items[i].id != items[k].id
  {
  }

  lemma SwapDistinct(items: seq<Item>, k: nat)
    requires Distinct(items) && k < |items|
    ensures Distinct(items[k := items[|items| - 1]][..|items| - 1])
  {
  }

  /** Moving the last item into the place of item `k` removes exactly that one. */
  lemma SwapIsMap(t: Table, s: Store, k: nat)
    requires Represents(t, s) && k < |t.items|
    ensures var last := |t.items| - 1;
            Represents(t.(items := t.items[k := t.items[last]][..last]), s.(items := s.items - {t.items[k].id}))
  {
    hide Find, Distinct;
    var last := |t.items| - 1;
    DistinctAt(t.items, k);
    var items := t.items[k := t.items[last]][..last];
    assert forall i :: 0 <= i < last ==> items[i] == t.items[if i == k then last else i];
    SwapDistinct(t.items, k);
    forall id | id in s.items && id != t.items[k].id ensures Find(items, id) < |items| {
      var i := Find(t.items, id);
      assert items[if i == last then k else i].id == id;
    }
  }

  //////////////////////////////////////////////////////////////////////////////
  // Pages
  //////////////////////////////////////////////////////////////////////////////

  /** `show` is negative for all items, else the value of the active flag to show. */
  predicate Shown(item: Item, show: int) {
    show < 0 || show == if item.active then 1 else 0
  }

  function Filtered(items: seq<Item>, show: int): (f: seq<Item>)
    ensures |f| <= |items|
  {
    if items == [] then []
    else
      var last := items[|items| - 1];
      Filtered(items[..|items| - 1], show) + if Shown(last, show) then [last] else []
  }

  /** What is listed, in order: with 1 the active items, with 0 the others, with a negative number all. */
  function Listed(show: int): Item -> bool {
    (item: Item) => if show < 0 then true else if show == 1 then item.active else show == 0 && !item.active
  }

  ghost predicate TakenFrom(taken: seq<Item>, items: seq<Item>, at: seq<nat>) {
    |taken| == |at| && forall j :: 0 <= j < |at| ==> at[j] < |items| && taken[j] == items[at[j]]
  }

  lemma {:induction false} FilteredPicks(items: seq<Item>, show: int) returns (at: seq<nat>)
    ensures Picks(items, Listed(show), at) && TakenFrom(Filtered(items, show), items, at)
  {
    if items == [] {
      at := [];
    } else {
      hide Picks, TakenFrom, Filtered, Listed;
      var before, last := items[..|items| - 1], items[|items| - 1];
      at := FilteredPicks(before, show);
      assert items == before + [last];
      PicksAppend(before, Listed(show), at, last);
      FilteredStep(items, show);
      ListedIsShown(last, show);
      TakenAppend(Filtered(before, show), before, at, last);
      at := if Listed(show)(last) then at + [|before|] else at;
    }
  }

  lemma ListedIsShown(item: Item, show: int)
    ensures Listed(show)(item) == Shown(item, show)
  {
  }

  lemma TakenAppend(taken: seq<Item>, items: seq<Item>, at: seq<nat>, item: Item)
    requires TakenFrom(taken, items, at)
    ensures TakenFrom(taken, items + [item], at) && TakenFrom(taken + [item], items + [item], at + [|items|])
  {
  }

  lemma {:induction false} FilteredPrefix(items: seq<Item>, i: nat, show: int)
    requires i <= |items|
    ensures Filtered(items[..i], show) <= Filtered(items, show)
    decreases |items|
  {
    if i < |items| {
      var last := |items| - 1;
      FilteredPrefix(items[..last], i, show);
      assert items[..last][..i] == items[..i];
    } else {
      assert items[..i] == items;
    }
  }

  function Window<T>(all: seq<T>, offset: nat, per: nat): seq<T> {
    if offset >= |all| then [] else if offset + per >= |all| then all[offset..] else all[offset..offset + per]
  }

  function Page<T>(all: seq<T>, page: nat, per: nat): seq<T>
    requires page >= 1
  {
    Window(all, (page - 1) * per, per)
  }

  /** The first `n` pages, one after the other. */
  function Pages<T>(all: seq<T>, n: nat, per: nat): seq<T> {
    if n == 0 then [] else Pages(all, n - 1, per) + Page(all, n, per)
  }

  function TotalPages(total: nat, per: nat): nat
    requires per >= 1
  {
    (total + per - 1) / per
  }

  lemma {:induction false} PagesArePrefix<T>(all: seq<T>, n: nat, per: nat)
    ensures Pages(all, n, per) == if n * per < |all| then all[..n * per] else all
  {
    if n == 0 {
      assert n * per == 0;
    } else {
      PagesArePrefix(all, n - 1, per);
      assert n * per == (n - 1) * per + per;
      WindowExtends(all, (n - 1) * per, per);
    }
  }

  lemma WindowExtends<T>(all: seq<T>, offset: nat, per: nat)
    ensures (if offset < |all| then all[..offset] else all) + Window(all, offset, per)
         == if offset + per < |all| then all[..offset + per] else all
  {
  }

  lemma TotalPagesBounds(total: nat, per: nat)
    requires per >= 1
    ensures total <= TotalPages(total, per) * per < total + per
  {
    var n := TotalPages(total, per);
    assert total + per - 1 == n * per + (total + per - 1) % per;
  }

  /** The announced pages hold the whole list in order, and every later page is empty. */
  lemma PagesCover<T>(all: seq<T>, per: nat, later: nat)
    requires per >= 1
    ensures var n := TotalPages(|all|, per);
            Pages(all, n, per) == all && (later > n ==> Page(all, later, per) == [])
  {
    var n := TotalPages(|all|, per);
    TotalPagesBounds(|all|, per);
    PagesArePrefix(all, n, per);
    if later > n {
      Monotone(n, later - 1, per);
    }
  }

  lemma Monotone(a: nat, b: nat, per: nat)
    requires a <= b
    ensures a * per <= b * per
  {
    assert b * per == a * per + (b - a) * per;
  }

  /** The flag `has_next` as it is computed. */
  predicate HasNext(per: nat, count: nat) {
    per > count
  }

  lemma PageSizes<T>(all: seq<T>, offset: nat, per: nat)
    requires per >= 1
    ensures |Window(all, offset, per)| < per <==> |all| < offset + per
    ensures Window(all, offset + per, per) != [] <==> offset + per < |all|
  {
  }

  /** A list of one item says that it has a second page, which is empty. */
  lemma OnlyPageClaimsNext<T>(item: T)
    ensures HasNext(10, |Page([item], 1, 10)|) && Page([item], 2, 10) == []
  {
  }

  /** The flag tells whether there is a next page exactly if the list ends with this page, and the page is full. */
  lemma HasNextIffExactEnd<T>(all: seq<T>, page: nat, per: nat)
    requires page >= 1 && per >= 1
    ensures (HasNext(per, |Page(all, page, per)|) <==> Page(all, page + 1, per) != []) <==> |all| == page * per
  {
    hide Window;
    PageSizes(all, (page - 1) * per, per);
    assert page * per == (page - 1) * per + per;
    assert page + 1 - 1 == page;
  }

  //////////////////////////////////////////////////////////////////////////////
  // The procedures
  //////////////////////////////////////////////////////////////////////////////

  class Database {
    const items: array<Item>
    var count: nat
    var next: int

    ghost predicate Valid()
      reads this
    {
      items.Length == MAX_ITEMS && count <= MAX_ITEMS
    }

    ghost function State(): Table
      requires Valid()
      reads this, items
    {
      Table(items[..count], next)
    }

    constructor ()
      ensures Valid() && fresh(items) && State() == Table([], 1)
    {
      items := new Item[MAX_ITEMS](_ => Item(0, "", "", false));
      count, next := 0, 1;
    }

    /** The search that every handler by identifier starts with. */
    method IndexOf(id: int) returns (k: nat)
      requires Valid()
      ensures k == Find(items[..count], id)
    {
      hide Find;
      k := 0;
      while k < count && items[k].id != id
        invariant k <= count && forall i :: 0 <= i < k ==> items[..count][i].id != id
      {
        k := k + 1;
      }
    }

    /** `create_item_handler`; the error is a full table or a missing name or address. */
    method CreateItem(name: string, email: string) returns (ok: bool)
      requires Valid()
      modifies this, items
      ensures Valid() && State() == Step(old(State()), Create(name, email))
      ensures ok == !Rejected(old(count), name, email)
    {
      if count >= MAX_ITEMS || name == "" || email == "" {
        return false;
      }
      items[count] := Item(next, AtMost(name, TEXT_MAX), AtMost(email, TEXT_MAX), true);
      count, next := count + 1, next + 1;
      return true;
    }

    /** `update_item_handler`. */
    method UpdateItem(id: int, name: Option<string>, email: Option<string>) returns (ok: bool)
      requires Valid()
      modifies items
      ensures Valid() && State() == Step(old(State()), Update(id, name, email))
      ensures ok == (Find(old(items[..count]), id) < count)
    {
      var k := IndexOf(id);
      if k == count {
        return false;
      }
      items[k] := Updated(items[k], name, email);
      return true;
    }

    /** `delete_item_handler`. */
    method DeleteItem(id: int) returns (ok: bool)
      requires Valid()
      modifies this, items
      ensures Valid() && State() == Step(old(State()), Delete(id))
      ensures ok == (Find(old(items[..count]), id) < old(count))
    {
      var k := IndexOf(id);
      if k == count {
        return false;
      }
      count := count - 1;
      items[k] := items[count];
      return true;
    }

    /** `toggle_item_handler`. */
    method ToggleItem(id: int) returns (ok: bool)
      requires Valid()
      modifies items
      ensures Valid() && State() == Step(old(State()), Toggle(id))
      ensures ok == (Find(old(items[..count]), id) < count)
    {
      var k := IndexOf(id);
      if k == count {
        return false;
      }
      items[k] := items[k].(active := !items[k].active);
      return true;
    }

    /** `list_items_handler`, from the parsed query on. */
    method ListItems(page0: int, per0: int, show: int) returns (slice: seq<Item>, total: nat, page: nat, per: nat)
      requires Valid()
      ensures page == (if page0 < 1 then 1 else page0) && per == (if per0 < 1 || per0 > 100 then 10 else per0)
      ensures total == |Filtered(items[..count], show)|
      ensures page >= 1 && slice == Page(Filtered(items[..count], show), page, per)
    {
      page := if page0 < 1 then 1 else page0;
      per := if per0 < 1 || per0 > 100 then 10 else per0;
      total := CountShown(show);
      slice := Collect(show, (page - 1) * per, per);
    }

    method CountShown(show: int) returns (total: nat)
      requires Valid()
      ensures total == |Filtered(items[..count], show)|
    {
      total := 0;
      for i := 0 to count
        invariant total == |Filtered(items[..i], show)|
      {
        assert items[..i + 1][..i] == items[..i];
        if Shown(items[i], show) {
          total := total + 1;
        }
      }
    }

    /** Skips `start` items of the filtered list and takes at most `per`. */
    method Collect(show: int, start: nat, per: nat) returns (slice: seq<Item>)
      requires Valid() && per >= 1
      ensures slice == Window(Filtered(items[..count], show), start, per)
    {
      hide Window, Filtered;
      var offset, i := start, 0;
      slice := [];
      EmptyWindow(items[..0], show, start, per);
      while i < count && |slice| < per
        invariant i <= count
        invariant slice == Window(Filtered(items[..i], show), start, per)
        invariant offset == var n := |Filtered(items[..i], show)|; if n < start then start - n else 0
      {
        FilteredStep(items[..i + 1], show);
        assert items[..i + 1][..i] == items[..i];
        if Shown(items[i], show) {
          WindowStep(Filtered(items[..i], show), items[i], start, per);
          if offset > 0 {
            offset := offset - 1;
          } else {
            slice := slice + [items[i]];
          }
        }
        i := i + 1;
      }
      assert items[..count][..i] == items[..i];
      FilteredPrefix(items[..count], i, show);
      if i < count {
        WindowIsFull(Filtered(items[..i], show), Filtered(items[..count], show), start, per);
      }
    }
  }

  lemma EmptyWindow(items: seq<Item>, show: int, offset: nat, per: nat)
    requires items == []
    ensures Filtered(items, show) == [] && Window(Filtered(items, show), offset, per) == []
  {
  }

  lemma FilteredStep(items: seq<Item>, show: int)
    requires items != []
    ensures var k := |items| - 1;
            Filtered(items, show) == if Shown(items[k], show) then Filtered(items[..k], show) + [items[k]]
                                     else Filtered(items[..k], show)
  {
  }

  lemma WindowStep<T>(all: seq<T>, x: T, offset: nat, per: nat)
    requires |Window(all, offset, per)| < per
    ensures Window(all + [x], offset, per) == if offset <= |all| then Window(all, offset, per) + [x]
                                              else Window(all, offset, per)
  {
  }

  lemma WindowIsFull<T>(part: seq<T>, all: seq<T>, offset: nat, per: nat)
    requires part <= all && per >= 1 && |Window(part, offset, per)| >= per
    ensures Window(all, offset, per) == Window(part, offset, per)
  {
  }
}
