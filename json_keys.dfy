/** `convert_keys_into`: the walk that rewrites the keys of a JSON object into
    a caller-supplied ordered map, recursing into nested objects only.

    A Python dict is an ordered map: assigning to a present key replaces its
    value and keeps its position, assigning to a new key appends it. The buffer
    is modelled as a `Buffer` object holding such an ordered list of entries. */
module JsonKeys {
  import opened Wrappers

  /** A decoded JSON value. Numbers are kept as integers: the walk copies every
      non-object value verbatim, so their exact form never matters. */
  datatype Json =
    | Null
    | Bool(b: bool)
    | Num(n: int)
    | Str(s: string)
    | Arr(items: seq<Json>)
    | Obj(members: seq<(string, Json)>)

  type Entries = seq<(string, Json)>

  /** The keys of an ordered map, in order. */
  function Keys(es: Entries): (ks: seq<string>)
    ensures |ks| == |es| && forall i :: 0 <= i < |es| ==> ks[i] == es[i].0
  {
    if es == [] then [] else [es[0].0] + Keys(es[1..])
  }

  predicate DistinctKeys(es: Entries)
  {
    forall i, j :: 0 <= i < j < |es| ==> es[i].0 != es[j].0
  }

  /** `mapping.get(k)` */
  function Get(es: Entries, k: string): (r: Option<Json>)
    ensures r.None? <==> k !in Keys(es)
  {
    if es == [] then None
    else if es[0].0 == k then Some(es[0].1)
    else Get(es[1..], k)
  }

  /** `buffer[k] = v` on an ordered map. */
  function Assign(es: Entries, k: string, v: Json): (r: Entries)
    ensures Keys(r) == if k in Keys(es) then Keys(es) else Keys(es) + [k]
    ensures Get(r, k) == Some(v)
    ensures forall k' :: k' != k ==> Get(r, k') == Get(es, k')
  {
    if es == [] then [(k, v)]
    else if es[0].0 == k then [(k, v)] + es[1..]
    else [es[0]] + Assign(es[1..], k, v)
  }

  lemma AssignKeepsDistinct(es: Entries, k: string, v: Json)
    requires DistinctKeys(es)
    ensures DistinctKeys(Assign(es, k, v))
  {
    var r := Assign(es, k, v);
    assert Keys(r) == if k in Keys(es) then Keys(es) else Keys(es) + [k];
    forall i, j | 0 <= i < j < |r|
      ensures r[i].0 != r[j].0
    {
      assert Keys(r)[i] == r[i].0 && Keys(r)[j] == r[j].0;
      if j == |es| {
        assert k !in Keys(es);
        assert Keys(es)[i] == es[i].0;
      } else {
        assert Keys(es)[i] == es[i].0 && Keys(es)[j] == es[j].0;
      }
    }
  }

  /** The state `convert_keys_into(c, m, buffer)` leaves in a buffer that held
      `buf` once the pairs of `m` before position `i` are done: each remaining
      pair, in order, is assigned under its converted key, and a nested object
      is first converted into a fresh ordered map of its own. */
  function FillFrom(c: string -> string, buf: Entries, m: Entries, i: nat): Entries
    requires i <= |m|
    decreases Obj(m), |m| - i
  {
    if i == |m| then buf
    else
      var v := m[i].1;
      var stored := if v.Obj? then Obj(FillFrom(c, [], v.members, 0)) else v;
      FillFrom(c, Assign(buf, c(m[i].0), stored), m, i + 1)
  }

  /** The whole walk over `m`. */
  function Fill(c: string -> string, buf: Entries, m: Entries): Entries
  {
    FillFrom(c, buf, m, 0)
  }

  /** Resuming at position `i` is walking the rest of the pairs. */
  lemma {:induction false} FillFromSuffix(c: string -> string, buf: Entries, m: Entries, i: nat)
    requires i <= |m|
    ensures FillFrom(c, buf, m, i) == Fill(c, buf, m[i..])
    decreases |m| - i
  {
    if i < |m| {
      var v := m[i].1;
      var stored := if v.Obj? then Obj(FillFrom(c, [], v.members, 0)) else v;
      var buf' := Assign(buf, c(m[i].0), stored);
      FillFromSuffix(c, buf', m, i + 1);
      assert m[i..][0] == m[i];
      FillFromSuffix(c, buf', m[i..], 1);
      assert m[i..][1..] == m[i + 1..];
    }
  }

  /** The value stored for a source value: an object becomes a fresh object
      holding its converted keys; anything else (an array with objects inside
      included) is stored as it is. */
  function Converted(c: string -> string, v: Json): (r: Json)
    ensures v.Obj? <==> r.Obj?
    ensures !v.Obj? ==> r == v
  {
    if v.Obj? then Obj(Fill(c, [], v.members)) else v
  }

  /** One step of the walk, at position `i`. */
  lemma FillFromStep(c: string -> string, buf: Entries, m: Entries, i: nat)
    requires i < |m|
    ensures FillFrom(c, buf, m, i) == FillFrom(c, Assign(buf, c(m[i].0), Converted(c, m[i].1)), m, i + 1)
  {
  }

  /** One step of the walk. */
  lemma FillStep(c: string -> string, buf: Entries, m: Entries)
    requires m != []
    ensures Fill(c, buf, m) == Fill(c, Assign(buf, c(m[0].0), Converted(c, m[0].1)), m[1..])
  {
    FillFromSuffix(c, Assign(buf, c(m[0].0), Converted(c, m[0].1)), m, 1);
  }

  /** The walk over a one-entry mapping. */
  lemma FillOne(c: string -> string, k: string, v: Json)
    ensures Fill(c, [], [(k, v)]) == [(c(k), Converted(c, v))]
  {
    FillFromStep(c, [], [(k, v)], 0);
  }

  /** The walk over a two-entry mapping: two different converted keys give
      two entries in source order; a collision gives one entry holding the
      second value. */
  lemma FillTwo(c: string -> string, k1: string, v1: Json, k2: string, v2: Json)
    ensures c(k1) != c(k2) ==>
      Fill(c, [], [(k1, v1), (k2, v2)]) == [(c(k1), Converted(c, v1)), (c(k2), Converted(c, v2))]
    ensures c(k1) == c(k2) ==>
      Fill(c, [], [(k1, v1), (k2, v2)]) == [(c(k1), Converted(c, v2))]
  {
    FillTwoSteps(c, k1, v1, k2, v2);
    var b1: Entries := [(c(k1), Converted(c, v1))];
    assert Keys(b1) == [c(k1)];
  }

  lemma FillTwoSteps(c: string -> string, k1: string, v1: Json, k2: string, v2: Json)
    ensures Fill(c, [], [(k1, v1), (k2, v2)])
         == Assign([(c(k1), Converted(c, v1))], c(k2), Converted(c, v2))
  {
    var m: Entries := [(k1, v1), (k2, v2)];
    var b1 := Assign([], c(k1), Converted(c, v1));
    assert b1 == [(c(k1), Converted(c, v1))];
    FillFromStep(c, [], m, 0);
    FillFromStep(c, b1, m, 1);
  }

  /** The converted keys of `m`, in iteration order. */
  function ConvertedKeys(c: string -> string, m: Entries): (ks: seq<string>)
    ensures |ks| == |m| && forall i :: 0 <= i < |m| ==> ks[i] == c(m[i].0)
  {
    if m == [] then [] else [c(m[0].0)] + ConvertedKeys(c, m[1..])
  }

  /** `ks` followed by each key of `more` that is not yet present, at its
      first occurrence. */
  function Extend(ks: seq<string>, more: seq<string>): seq<string>
    decreases more
  {
    if more == [] then ks
    else Extend(if more[0] in ks then ks else ks + [more[0]], more[1..])
  }

  lemma {:induction false} ExtendMembers(ks: seq<string>, more: seq<string>)
    ensures forall k :: k in Extend(ks, more) <==> k in ks || k in more
    ensures |ks| <= |Extend(ks, more)| <= |ks| + |more|
    ensures Extend(ks, more)[..|ks|] == ks
    decreases more
  {
    if more != [] {
      var ks' := if more[0] in ks then ks else ks + [more[0]];
      ExtendMembers(ks', more[1..]);
      assert more == [more[0]] + more[1..];
      assert Extend(ks, more)[..|ks|] == Extend(ks, more)[..|ks'|][..|ks|];
    }
  }

  /** The buffer keeps distinct keys. */
  lemma {:induction false} FillKeepsDistinct(c: string -> string, buf: Entries, m: Entries)
    requires DistinctKeys(buf)
    ensures DistinctKeys(Fill(c, buf, m))
    decreases m
  {
    if m != [] {
      FillStep(c, buf, m);
      AssignKeepsDistinct(buf, c(m[0].0), Converted(c, m[0].1));
      FillKeepsDistinct(c, Assign(buf, c(m[0].0), Converted(c, m[0].1)), m[1..]);
    }
  }

  /** Order: the buffer's keys stay where they were, and each new converted key
      is appended where it first occurs; re-assigning a key never moves it. */
  lemma {:induction false} FillOrder(c: string -> string, buf: Entries, m: Entries)
    ensures Keys(Fill(c, buf, m)) == Extend(Keys(buf), ConvertedKeys(c, m))
    decreases m
  {
    if m != [] {
      FillStep(c, buf, m);
      var ck := c(m[0].0);
      var buf' := Assign(buf, ck, Converted(c, m[0].1));
      FillOrder(c, buf', m[1..]);
      assert ConvertedKeys(c, m) == [ck] + ConvertedKeys(c, m[1..]);
    }
  }

  /** Key set: the result holds the buffer's keys and exactly the converted
      keys of the source, no more. */
  lemma FillKeySet(c: string -> string, buf: Entries, m: Entries)
    ensures forall k :: k in Keys(Fill(c, buf, m)) <==> k in Keys(buf) || k in ConvertedKeys(c, m)
  {
    FillOrder(c, buf, m);
    ExtendMembers(Keys(buf), ConvertedKeys(c, m));
  }

  /** Size: starting from an empty buffer, there are at most as many entries
      as source keys. */
  lemma FillSize(c: string -> string, m: Entries)
    ensures |Fill(c, [], m)| <= |m|
  {
    FillOrder(c, [], m);
    ExtendMembers([], ConvertedKeys(c, m));
    assert |Keys(Fill(c, [], m))| == |Fill(c, [], m)|;
  }

  /** ... and exactly as many when the converted keys are pairwise different,
      i.e. when the source keys are distinct and the converter is injective on them. */
  lemma {:induction false} FillSizeInjective(c: string -> string, buf: Entries, m: Entries)
    requires forall i, j :: 0 <= i < j < |m| ==> c(m[i].0) != c(m[j].0)
    requires forall i :: 0 <= i < |m| ==> c(m[i].0) !in Keys(buf)
    ensures |Fill(c, buf, m)| == |buf| + |m|
    decreases m
  {
    if m != [] {
      FillStep(c, buf, m);
      var ck := c(m[0].0);
      var buf' := Assign(buf, ck, Converted(c, m[0].1));
      var rest := m[1..];
      assert Keys(buf') == Keys(buf) + [ck];
      assert |buf'| == |buf| + 1;
      forall i | 0 <= i < |rest|
        ensures c(rest[i].0) !in Keys(buf')
      {
        assert rest[i] == m[i + 1];
      }
      forall i, j | 0 <= i < j < |rest|
        ensures c(rest[i].0) != c(rest[j].0)
      {
        assert rest[i] == m[i + 1] && rest[j] == m[j + 1];
      }
      FillSizeInjective(c, buf', rest);
    }
  }

  /** With distinct source keys and a converter injective on them, starting
      empty gives one entry per source key. */
  lemma FillSizeExact(c: string -> string, m: Entries)
    requires DistinctKeys(m)
    requires forall k1, k2 :: k1 in Keys(m) && k2 in Keys(m) && c(k1) == c(k2) ==> k1 == k2
    ensures |Fill(c, [], m)| == |m|
  {
    forall i, j | 0 <= i < j < |m|
      ensures c(m[i].0) != c(m[j].0)
    {
      assert Keys(m)[i] == m[i].0 && Keys(m)[j] == m[j].0;
    }
    FillSizeInjective(c, [], m);
  }

  /** Last write wins: the value stored under a converted key is the converted
      value of the last source pair whose key converts to it. */
  lemma FillLastWins(c: string -> string, buf: Entries, m: Entries, i: nat)
    requires i < |m|
    requires forall j :: i < j < |m| ==> c(m[j].0) != c(m[i].0)
    ensures Get(Fill(c, buf, m), c(m[i].0)) == Some(Converted(c, m[i].1))
  {
    FillFromLastWins(c, buf, m, 0, i);
  }

  lemma {:induction false} FillFromLastWins(c: string -> string, buf: Entries, m: Entries, n: nat, i: nat)
    requires n <= i < |m|
    requires forall j :: i < j < |m| ==> c(m[j].0) != c(m[i].0)
    ensures Get(FillFrom(c, buf, m, n), c(m[i].0)) == Some(Converted(c, m[i].1))
    decreases i - n
  {
    var buf' := Assign(buf, c(m[n].0), Converted(c, m[n].1));
    FillFromStep(c, buf, m, n);
    if n == i {
      FillFromUntouched(c, buf', m, n + 1, c(m[i].0));
    } else {
      FillFromLastWins(c, buf', m, n + 1, i);
    }
  }

  /** Nothing else changes: a buffer entry whose key no converted key hits
      keeps its value. */
  lemma FillUntouched(c: string -> string, buf: Entries, m: Entries, k: string)
    requires k !in ConvertedKeys(c, m)
    ensures Get(Fill(c, buf, m), k) == Get(buf, k)
  {
    var ks := ConvertedKeys(c, m);
    forall j | 0 <= j < |m|
      ensures c(m[j].0) != k
    {
      assert ks[j] == c(m[j].0);
    }
    FillFromUntouched(c, buf, m, 0, k);
  }

  lemma {:induction false} FillFromUntouched(c: string -> string, buf: Entries, m: Entries, n: nat, k: string)
    requires n <= |m|
    requires forall j :: n <= j < |m| ==> c(m[j].0) != k
    ensures Get(FillFrom(c, buf, m, n), k) == Get(buf, k)
    decreases |m| - n
  {
    if n < |m| {
      var buf' := Assign(buf, c(m[n].0), Converted(c, m[n].1));
      FillFromStep(c, buf, m, n);
      FillFromUntouched(c, buf', m, n + 1, k);
    }
  }

  /** The ordered map that `convert_keys_into` fills in place. */
  class Buffer {
    var entries: Entries

    ghost predicate Valid()
      reads this
    {
      DistinctKeys(entries)
    }

    /** `dict()` */
    constructor ()
      ensures Valid() && entries == []
    {
      entries := [];
    }

    /** `buffer[k] = v` */
    method Put(k: string, v: Json)
      requires Valid()
      modifies this
      ensures Valid()
      ensures entries == Assign(old(entries), k, v)
    {
      AssignKeepsDistinct(entries, k, v);
      entries := Assign(entries, k, v);
    }
  }

  /** `convert_keys_into(converter, mapping, buffer)`: each pair of the
      source object, in order, is stored in `buffer` under its converted key.
      The source is a value and cannot change; only `buffer` is written. */
  method ConvertKeysInto(c: string -> string, mapping: Entries, buffer: Buffer)
    requires buffer.Valid()
    modifies buffer
    ensures buffer.Valid()
    ensures buffer.entries == Fill(c, old(buffer.entries), mapping)
    decreases Obj(mapping), 0
  {
    ghost var target := Fill(c, buffer.entries, mapping);
    for i := 0 to |mapping|
      invariant buffer.Valid()
      invariant FillFrom(c, buffer.entries, mapping, i) == target
    {
      FillFromStep(c, buffer.entries, mapping, i);
      StoreConverted(c, mapping[i].0, mapping[i].1, buffer);
    }
  }

  /** The body of the loop of `convert_keys_into`: a nested object is converted
      into a fresh buffer that is then stored under the converted key; any
      other value is stored verbatim. */
  method StoreConverted(c: string -> string, key: string, value: Json, buffer: Buffer)
    requires buffer.Valid()
    modifies buffer
    ensures buffer.Valid()
    ensures buffer.entries == Assign(old(buffer.entries), c(key), Converted(c, value))
    decreases value, 1
  {
    var ck := c(key);
    if value.Obj? {
      var child := new Buffer();
      ConvertKeysInto(c, value.members, child);
      buffer.Put(ck, Obj(child.entries));
    } else {
      buffer.Put(ck, value);
    }
  }

  /** The walk started on an empty buffer, as `main` uses it. */
  method ConvertKeys(c: string -> string, mapping: Entries) returns (out: Entries)
    ensures out == Fill(c, [], mapping)
    ensures DistinctKeys(out)
    ensures forall k :: k in Keys(out) <==> k in ConvertedKeys(c, mapping)
  {
    var result := new Buffer();
    ConvertKeysInto(c, mapping, result);
    out := result.entries;
    FillKeySet(c, [], mapping);
  }
}
