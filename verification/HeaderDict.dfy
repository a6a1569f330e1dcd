/**
 The case-insensitive dictionary of request headers, after `CaseInsensitiveDict` in
 `python/csilk/context.py`.

 It is a `dict` with a second table beside the inherited one. The inherited table is what iteration and
 `len` see; the second one is keyed by the folded key and is what look-ups see. Every operation updates
 both. `fold` stands for `str.lower`; nothing is assumed of it.
 */
module HeaderDict {
  import opened Wrappers

  datatype Entry<V> = Entry(spelling: string, value: V)

  /** The overridden operations that write. */
  datatype Op<V> = Set(key: string, value: V) | Remove(key: string)

  /** What the dictionary means: a plain map on folded keys that remembers the last spelling. */
  function Step<V>(fold: string -> string, m: map<string, Entry<V>>, op: Op<V>): map<string, Entry<V>> {
    match op
    case Set(key, value) => m[fold(key) := Entry(key, value)]
    case Remove(key) => m - {fold(key)}
  }

  function Run<V>(fold: string -> string, m: map<string, Entry<V>>, ops: seq<Op<V>>): map<string, Entry<V>> {
    if ops == [] then m else Step(fold, Run(fold, m, ops[..|ops| - 1]), ops[|ops| - 1])
  }

  /** The last operation on any spelling of a key. */
  function Last<V>(fold: string -> string, ops: seq<Op<V>>, key: string): Option<Op<V>> {
    if ops == [] then None
    else
      var op := ops[|ops| - 1];
      if fold(op.key) == fold(key) then Some(op) else Last(fold, ops[..|ops| - 1], key)
  }

  /** After any operations, a key is present exactly if the last one on a spelling of it was a set. */
  lemma {:induction false} LookupIsLast<V>(fold: string -> string, ops: seq<Op<V>>, key: string)
    ensures var m, last := Run(fold, map[], ops), Last(fold, ops, key);
            && (fold(key) in m <==> last.Some? && last.value.Set?)
            && (fold(key) in m ==> m[fold(key)] == Entry(last.value.key, last.value.value))
  {
    if ops != [] {
      LookupIsLast(fold, ops[..|ops| - 1], key);
    }
  }

  /** The two tables hold the same entries, with one spelling per folded key. */
  ghost predicate Agree<V>(fold: string -> string, items: map<string, V>, store: map<string, Entry<V>>) {
    && (forall k :: k in items ==> fold(k) in store && store[fold(k)] == Entry(k, items[k]))
    && (forall f :: f in store ==> store[f].spelling in items && fold(store[f].spelling) == f)
  }

  /** `len` counts folded keys. */
  lemma {:induction false} SameSize<V>(fold: string -> string, items: map<string, V>, store: map<string, Entry<V>>)
    requires Agree(fold, items, store)
    ensures |items| == |store|
    decreases |items|
  {
    if k :| k in items {
      var items', store' := items - {k}, store - {fold(k)};
      SameSize(fold, items', store');
      assert items == items'[k := items[k]];
      assert store == store'[fold(k) := store[fold(k)]];
    } else {
      assert items == map[];
      assert store == map[];
    }
  }

  class CaseInsensitiveDict<V> {
    const fold: string -> string
    /** The inherited table. */
    var items: map<string, V>
    /** The table by folded key. */
    var store: map<string, Entry<V>>

    ghost predicate Valid()
      reads this
    {
      Agree(fold, items, store)
    }

    constructor (fold: string -> string, data: seq<(string, V)>)
      ensures Valid() && this.fold == fold
      ensures store == Run(fold, map[], Sets(data))
    {
      this.fold, items, store := fold, map[], map[];
      new;
      Update(data);
    }

    /** `__setitem__`. */
    method SetItem(key: string, value: V)
      requires Valid()
      modifies this
      ensures Valid() && store == Step(fold, old(store), Set(key, value))
    {
      var f := fold(key);
      if f in store {
        var spelling := store[f].spelling;
        if spelling != key {
          items := items - {spelling};
        }
      }
      store := store[f := Entry(key, value)];
      items := items[key := value];
    }

    /** `__getitem__`; the error is a missing key. */
    method GetItem(key: string) returns (r: Option<V>)
      requires Valid()
      ensures r == if fold(key) in store then Some(store[fold(key)].value) else None
    {
      if fold(key) !in store {
        return None;
      }
      return Some(store[fold(key)].value);
    }

    /** `__delitem__`; the error is a missing key. */
    method DelItem(key: string) returns (ok: bool)
      requires Valid()
      modifies this
      ensures Valid() && store == Step(fold, old(store), Remove(key))
      ensures ok == (fold(key) in old(store))
    {
      var f := fold(key);
      if f !in store {
        return false;
      }
      var spelling := store[f].spelling;
      store := store - {f};
      items := items - {spelling};
      return true;
    }

    /** `get`. */
    method Get(key: string, default: V) returns (v: V)
      requires Valid()
      ensures v == if fold(key) in store then store[fold(key)].value else default
    {
      var r := GetItem(key);
      return if r.Some? then r.value else default;
    }

    /** `update`, over the pairs in the order they are iterated. */
    method Update(data: seq<(string, V)>)
      requires Valid()
      modifies this
      ensures Valid() && store == Run(fold, old(store), Sets(data))
    {
      var i := 0;
      while i < |data|
        invariant i <= |data| && Valid() && store == Run(fold, old(store), Sets(data[..i]))
      {
        assert Sets(data[..i + 1])[..i] == Sets(data[..i]);
        SetItem(data[i].0, data[i].1);
        i := i + 1;
      }
      assert data[..i] == data;
    }

    /** `pop`. */
    method Pop(key: string, default: V) returns (v: V)
      requires Valid()
      modifies this
      ensures Valid() && store == Step(fold, old(store), Remove(key))
      ensures v == if fold(key) in old(store) then old(store)[fold(key)].value else default
    {
      var r := GetItem(key);
      if r.None? {
        return default;
      }
      var ok := DelItem(key);
      return r.value;
    }
  }

  function Sets<V>(data: seq<(string, V)>): seq<Op<V>> {
    seq(|data|, i requires 0 <= i < |data| => Set(data[i].0, data[i].1))
  }
}
