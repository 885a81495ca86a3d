/**
 * The parsed theme document: a tree of TOML values. Only strings, arrays and
 * tables matter to the theme passes; every other value (integers, floats,
 * booleans, dates) is `Other`. A table is a list of key/value entries; the
 * operations below keep keys distinct, as a map does.
 */
module Toml {
  import opened Wrappers

  datatype Value =
    | Str(s: string)
    | Arr(items: seq<Value>)
    | Table(entries: seq<(string, Value)>)
    | Other

  type Entries = seq<(string, Value)>

  /** The keys of a table, in order. */
  function Keys(t: Entries): (ks: seq<string>)
    ensures |ks| == |t|
    ensures forall i :: 0 <= i < |t| ==> ks[i] == t[i].0
  {
    seq(|t|, i requires 0 <= i < |t| => t[i].0)
  }

  predicate DistinctKeys(t: Entries)
  {
    forall i, j :: 0 <= i < j < |t| ==> t[i].0 != t[j].0
  }

  /** `Table::get`: the value of the first entry with key `k`. */
  function Get(t: Entries, k: string): (r: Option<Value>)
    ensures r.None? <==> k !in Keys(t)
    ensures r.Some? ==> exists i :: 0 <= i < |t| && t[i] == (k, r.value)
  {
    if t == [] then None
    else if t[0].0 == k then Some(t[0].1)
    else
      var r := Get(t[1..], k);
      assert r.None? <==> k !in Keys(t[1..]);
      assert Keys(t) == [t[0].0] + Keys(t[1..]);
      assert r.Some? ==> exists i :: 0 <= i < |t[1..]| && t[1..][i] == (k, r.value);
      assert forall i :: 0 <= i < |t[1..]| ==> t[1..][i] == t[i + 1];
      r
  }

  /**
   * `Table::insert`: the entry with key `k` gets value `v` in place, or, when
   * there is none, a new entry is added at the end.
   */
  function Insert(t: Entries, k: string, v: Value): (r: Entries)
    ensures Keys(r) == if k in Keys(t) then Keys(t) else Keys(t) + [k]
  {
    if t == [] then [(k, v)]
    else
      KeysCons(t[0], t[1..]);
      assert [t[0]] + t[1..] == t;
      if t[0].0 == k then
        KeysCons((k, v), t[1..]);
        [(k, v)] + t[1..]
      else
        var rest := Insert(t[1..], k, v);
        KeysCons(t[0], rest);
        assert [t[0].0] + (Keys(t[1..]) + [k]) == ([t[0].0] + Keys(t[1..])) + [k];
        [t[0]] + rest
  }

  lemma KeysCons(e: (string, Value), t: Entries)
    ensures Keys([e] + t) == [e.0] + Keys(t)
  {
  }

  /** After an insert, `k` has the new value and every other key its old one. */
  lemma {:induction false} InsertGet(t: Entries, k: string, v: Value, k': string)
    ensures Get(Insert(t, k, v), k') == if k' == k then Some(v) else Get(t, k')
  {
    if t != [] && t[0].0 != k {
      InsertGet(t[1..], k, v, k');
      var r := Insert(t, k, v);
      assert r[0] == t[0] && r[1..] == Insert(t[1..], k, v);
    } else if t != [] {
      var r := Insert(t, k, v);
      assert r[1..] == t[1..];
    }
  }
  /** After an insert the key has the new value and every other key keeps its own. */
  lemma InsertEffect(t: Entries, k: string, v: Value)
    ensures Get(Insert(t, k, v), k) == Some(v)
    ensures forall k' :: k' != k ==> Get(Insert(t, k, v), k') == Get(t, k')
  {
    InsertGet(t, k, v, k);
    forall k' | k' != k ensures Get(Insert(t, k, v), k') == Get(t, k') {
      InsertGet(t, k, v, k');
    }
  }


  /** Inserting keeps the keys distinct. */
  lemma InsertDistinct(t: Entries, k: string, v: Value)
    requires DistinctKeys(t)
    ensures DistinctKeys(Insert(t, k, v))
  {
    var r := Insert(t, k, v);
    forall i, j | 0 <= i < j < |r| ensures r[i].0 != r[j].0 {
      assert Keys(r)[i] == r[i].0 && Keys(r)[j] == r[j].0;
      if k in Keys(t) {
        assert Keys(t)[i] == t[i].0 && Keys(t)[j] == t[j].0;
      } else if j < |t| {
        assert Keys(t)[i] == t[i].0 && Keys(t)[j] == t[j].0;
      } else {
        assert Keys(t)[i] == t[i].0;
      }
    }
  }

  /** `Value::get`: a key of a table value; every other value has no keys. */
  function Lookup(v: Value, k: string): (r: Option<Value>)
    ensures r.Some? ==> v.Table? && Get(v.entries, k) == r
    ensures v.Table? ==> r == Get(v.entries, k)
  {
    if v.Table? then Get(v.entries, k) else None
  }

  /** Replaces (or adds) the entry `k` of a table value; other values are left alone. */
  function Put(v: Value, k: string, x: Value): (r: Value)
    ensures v.Table? ==> r == Table(Insert(v.entries, k, x))
    ensures !v.Table? ==> r == v
  {
    if v.Table? then Table(Insert(v.entries, k, x)) else v
  }

  /** Putting `k0` leaves every other key's lookup as it was. */
  lemma PutOthers(v: Value, k0: string, x: Value, k: string)
    requires k != k0
    ensures Lookup(Put(v, k0, x), k) == Lookup(v, k)
  {
    if v.Table? {
      InsertGet(v.entries, k0, x, k);
    }
  }

  /**
   * `walk_value_strings_mut`: `f` applied to every string leaf, depth first,
   * arrays and tables rebuilt around the new leaves.
   */
  function MapStrings(v: Value, f: string -> string): Value
  {
    match v
    case Str(s) => Str(f(s))
    case Arr(items) => Arr(seq(|items|, i requires 0 <= i < |items| => MapStrings(items[i], f)))
    case Table(entries) => Table(seq(|entries|, i requires 0 <= i < |entries| => (entries[i].0, MapStrings(entries[i].1, f))))
    case Other => Other
  }

  /** `walk_table_strings_mut`: the walk over each value of a table, as the walk of the table. */
  function MapEntries(entries: Entries, f: string -> string): (r: Entries)
    ensures |r| == |entries|
    ensures Keys(r) == Keys(entries)
    ensures Table(r) == MapStrings(Table(entries), f)
  {
    seq(|entries|, i requires 0 <= i < |entries| => (entries[i].0, MapStrings(entries[i].1, f)))
  }

  /** Looking a key up after the walk finds the walked value of the entry it found before. */
  lemma {:induction false} GetMapEntries(entries: Entries, f: string -> string, k: string)
    ensures Get(MapEntries(entries, f), k) ==
      if Get(entries, k).Some? then Some(MapStrings(Get(entries, k).value, f)) else None
  {
    if entries != [] {
      var m := MapEntries(entries, f);
      assert m[0] == (entries[0].0, MapStrings(entries[0].1, f));
      assert m[1..] == MapEntries(entries[1..], f);
      GetMapEntries(entries[1..], f, k);
    }
  }

  /** The same for a key of a table value. */
  lemma LookupMapStrings(v: Value, f: string -> string, k: string)
    requires v.Table?
    ensures Lookup(MapStrings(v, f), k) ==
      if Lookup(v, k).Some? then Some(MapStrings(Lookup(v, k).value, f)) else None
  {
    assert MapStrings(v, f) == Table(MapEntries(v.entries, f));
    GetMapEntries(v.entries, f, k);
  }

  /** The lists of a list, one after another. */
  function Flatten(ss: seq<seq<string>>): seq<string>
  {
    if ss == [] then [] else ss[0] + Flatten(ss[1..])
  }

  /** The string leaves of a value, in walk order. */
  function Strings(v: Value): seq<string>
  {
    match v
    case Str(s) => [s]
    case Arr(items) => Flatten(seq(|items|, i requires 0 <= i < |items| => Strings(items[i])))
    case Table(entries) => Flatten(seq(|entries|, i requires 0 <= i < |entries| => Strings(entries[i].1)))
    case Other => []
  }

  /** A value with every string leaf emptied: its shape, keys and non-string leaves. */
  function Shape(v: Value): Value
  {
    match v
    case Str(_) => Str("")
    case Arr(items) => Arr(seq(|items|, i requires 0 <= i < |items| => Shape(items[i])))
    case Table(entries) => Table(seq(|entries|, i requires 0 <= i < |entries| => (entries[i].0, Shape(entries[i].1))))
    case Other => Other
  }

  /** `f` applied to each string of a list. */
  function MapSeq(f: string -> string, ss: seq<string>): (r: seq<string>)
    ensures |r| == |ss|
    ensures forall i :: 0 <= i < |ss| ==> r[i] == f(ss[i])
  {
    seq(|ss|, i requires 0 <= i < |ss| => f(ss[i]))
  }

  /** Mapping each inner list and flattening is flattening and then mapping. */
  lemma {:induction false} FlattenMap(f: string -> string, ss: seq<seq<string>>, ts: seq<seq<string>>)
    requires |ts| == |ss|
    requires forall i :: 0 <= i < |ss| ==> ts[i] == MapSeq(f, ss[i])
    ensures Flatten(ts) == MapSeq(f, Flatten(ss))
  {
    if ss != [] {
      FlattenMap(f, ss[1..], ts[1..]);
      assert MapSeq(f, ss[0] + Flatten(ss[1..])) == MapSeq(f, ss[0]) + MapSeq(f, Flatten(ss[1..]));
    }
  }

  /** Every string of a flattened list is a string of one of the inner lists. */
  lemma {:induction false} InFlatten(ss: seq<seq<string>>, x: string)
    requires x in Flatten(ss)
    ensures exists i :: 0 <= i < |ss| && x in ss[i]
  {
    if x !in ss[0] {
      InFlatten(ss[1..], x);
      var i :| 0 <= i < |ss[1..]| && x in ss[1..][i];
      assert x in ss[i + 1];
    }
  }

  /**
   * The walk keeps the shape of the tree, its keys and every non-string leaf,
   * and the string leaves it leaves behind are `f` of the old ones, one for
   * one and in order: every string is visited exactly once.
   */
  lemma {:induction false} MapStringsWalk(v: Value, f: string -> string)
    ensures Shape(MapStrings(v, f)) == Shape(v)
    ensures Strings(MapStrings(v, f)) == MapSeq(f, Strings(v))
  {
    match v
    case Str(s) =>
    case Arr(items) =>
      var m := MapStrings(v, f).items;
      forall i | 0 <= i < |items|
        ensures Shape(m[i]) == Shape(items[i]) && Strings(m[i]) == MapSeq(f, Strings(items[i]))
      {
        MapStringsWalk(items[i], f);
      }
      assert Shape(MapStrings(v, f)).items == Shape(v).items;
      FlattenMap(f, seq(|items|, i requires 0 <= i < |items| => Strings(items[i])),
                    seq(|m|, i requires 0 <= i < |m| => Strings(m[i])));
    case Table(entries) =>
      var m := MapStrings(v, f).entries;
      forall i | 0 <= i < |entries|
        ensures Shape(m[i].1) == Shape(entries[i].1) && Strings(m[i].1) == MapSeq(f, Strings(entries[i].1))
      {
        MapStringsWalk(entries[i].1, f);
      }
      assert Shape(MapStrings(v, f)).entries == Shape(v).entries;
      FlattenMap(f, seq(|entries|, i requires 0 <= i < |entries| => Strings(entries[i].1)),
                    seq(|m|, i requires 0 <= i < |m| => Strings(m[i].1)));
    case Other =>
  }

  /** A walk whose function fixes every string of the tree changes nothing. */
  lemma {:induction false} MapStringsFixed(v: Value, f: string -> string)
    requires forall s :: s in Strings(v) ==> f(s) == s
    ensures MapStrings(v, f) == v
  {
    match v
    case Str(s) =>
    case Arr(items) =>
      var ss := seq(|items|, i requires 0 <= i < |items| => Strings(items[i]));
      forall i | 0 <= i < |items| ensures MapStrings(items[i], f) == items[i] {
        forall x | x in Strings(items[i]) ensures f(x) == x {
          FlattenHas(ss, i, x);
        }
        MapStringsFixed(items[i], f);
      }
      assert MapStrings(v, f).items == items;
    case Table(entries) =>
      var ss := seq(|entries|, i requires 0 <= i < |entries| => Strings(entries[i].1));
      forall i | 0 <= i < |entries| ensures MapStrings(entries[i].1, f) == entries[i].1 {
        forall x | x in Strings(entries[i].1) ensures f(x) == x {
          FlattenHas(ss, i, x);
        }
        MapStringsFixed(entries[i].1, f);
      }
      assert MapStrings(v, f).entries == entries;
    case Other =>
  }

  /** Walking twice with a closure that is idempotent on strings is walking once. */
  lemma MapStringsIdempotent(v: Value, f: string -> string)
    requires forall s :: f(f(s)) == f(s)
    ensures MapStrings(MapStrings(v, f), f) == MapStrings(v, f)
  {
    var once := MapStrings(v, f);
    MapStringsWalk(v, f);
    forall x | x in Strings(once) ensures f(x) == x {
      var i :| 0 <= i < |Strings(once)| && Strings(once)[i] == x;
      assert x == f(Strings(v)[i]);
    }
    MapStringsFixed(once, f);
  }

  /** A string of an inner list is a string of the flattened list. */
  lemma {:induction false} FlattenHas(ss: seq<seq<string>>, i: nat, x: string)
    requires i < |ss| && x in ss[i]
    ensures x in Flatten(ss)
  {
    if i > 0 {
      FlattenHas(ss[1..], i - 1, x);
    }
  }

  /** Two walks in a row are one walk with the composed function `h`. */
  lemma {:induction false} MapStringsCompose(v: Value, f: string -> string, g: string -> string, h: string -> string)
    requires forall s :: h(s) == g(f(s))
    ensures MapStrings(MapStrings(v, f), g) == MapStrings(v, h)
  {
    match v
    case Str(s) =>
    case Arr(items) =>
      forall i | 0 <= i < |items|
        ensures MapStrings(MapStrings(items[i], f), g) == MapStrings(items[i], h)
      {
        MapStringsCompose(items[i], f, g, h);
      }
      assert MapStrings(MapStrings(v, f), g).items == MapStrings(v, h).items;
    case Table(entries) =>
      forall i | 0 <= i < |entries|
        ensures MapStrings(MapStrings(entries[i].1, f), g) == MapStrings(entries[i].1, h)
      {
        MapStringsCompose(entries[i].1, f, g, h);
      }
      assert MapStrings(MapStrings(v, f), g).entries == MapStrings(v, h).entries;
    case Other =>
  }
}
