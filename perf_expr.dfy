// The metric id table of tools/perf/util/expr.c: a hashmap from id names to
// optional expr_id_data, with the hash and equality it is built on, the
// add/lookup/resolve/delete operations and ids__union. Values are exact
// reals standing in for doubles; what hashmap__set, malloc and the metric
// parser return are parameters.

module PerfExpr {
  import opened Ints
  import opened Errno
  import opened Wrappers

  const SIZE_LIMIT: nat := 0x1_0000_0000_0000_0000

  // ---------------------------------------------------------------------
  // key_hash / key_equal
  // ---------------------------------------------------------------------

  /** The width-free polynomial the hash reduces: each character weighted by a power of 31. */
  function Poly(s: string): int
    decreases |s|
  {
    if s == [] then 0 else Poly(s[..|s| - 1]) * 31 + s[|s| - 1] as int
  }

  /** key_hash: h = h * 31 + c over the characters, in a 64-bit size_t. */
  function Hash(s: string): (h: nat)
    ensures h < SIZE_LIMIT
    decreases |s|
  {
    if s == [] then 0 else (Hash(s[..|s| - 1]) * 31 + s[|s| - 1] as int) % SIZE_LIMIT
  }

  /** The hash is the polynomial reduced once, at the end: wrapping at every step changes nothing. */
  lemma {:induction false} HashIsPoly(s: string)
    ensures Hash(s) == Poly(s) % SIZE_LIMIT
    decreases |s|
  {
    if s != [] {
      var p := s[..|s| - 1];
      var c := s[|s| - 1] as int;
      HashIsPoly(p);
      DivModUnique(Poly(p), SIZE_LIMIT, Poly(p) / SIZE_LIMIT, Poly(p) % SIZE_LIMIT);
      var q := Poly(p) / SIZE_LIMIT;
      assert Poly(s) == (Poly(p) % SIZE_LIMIT) * 31 + c + (q * 31) * SIZE_LIMIT;
      ModShift((Poly(p) % SIZE_LIMIT) * 31 + c, q * 31);
    }
  }

  lemma ModShift(x: int, q: int)
    ensures (x + q * SIZE_LIMIT) % SIZE_LIMIT == x % SIZE_LIMIT
  {
    DivModUnique(x + q * SIZE_LIMIT, SIZE_LIMIT, x / SIZE_LIMIT + q, x % SIZE_LIMIT);
  }

  /** key_hash's loop. */
  method KeyHash(s: string) returns (h: nat)
    ensures h == Hash(s)
  {
    h := 0;
    var i := 0;
    while i < |s|
      invariant 0 <= i <= |s|
      invariant h == Hash(s[..i])
    {
      assert s[..i + 1][..i] == s[..i];
      h := (h * 31 + s[i] as int) % SIZE_LIMIT;
      i := i + 1;
    }
    assert s[..i] == s;
  }

  /** key_equal: strcmp(key1, key2) == 0. */
  predicate KeyEqual(a: string, b: string)
  {
    |a| == |b| && forall i :: 0 <= i < |a| ==> a[i] == b[i]
  }

  /** Keys that key_equal identifies hash alike, as the hashmap needs. */
  lemma EqualKeysHashAlike(a: string, b: string)
    requires KeyEqual(a, b)
    ensures a == b && Hash(a) == Hash(b)
  {
  }

  // ---------------------------------------------------------------------
  // expr_id_data
  // ---------------------------------------------------------------------

  /**
   * struct expr_id_data by kind. Every kind has the double at the start of
   * the union; a Ref's is zero from zalloc.
   */
  datatype IdData =
    | Value(val: real, sourceCount: int)
    | Ref(val: real, metricName: string, metricExpr: string)
    | RefValue(val: real, metricName: string, metricExpr: string)

  /** expr_id_data__value: the value of a VALUE or a computed REF entry; asserts on an unresolved REF. */
  function DataValue(data: IdData): (r: real)
    requires !data.Ref?
    ensures data.Value? ==> r == data.val
    ensures data.RefValue? ==> r == data.val
  {
    match data
    case Value(v, _) => v
    case RefValue(v, _, _) => v
  }

  /** expr_id_data__source_count, defined for VALUE entries only. */
  function DataSourceCount(data: IdData): (r: int)
    requires data.Value?
    ensures r == data.sourceCount
  {
    data.sourceCount
  }

  // ---------------------------------------------------------------------
  // The id table
  // ---------------------------------------------------------------------

  /** A perf hashmap of ids; an entry's data pointer may be NULL (None). */
  class IdMap {
    var entries: map<string, Option<IdData>>

    /** ids__new / expr__ctx_new */
    constructor ()
      ensures entries == map[]
    {
      entries := map[];
    }

    /**
     * ids__insert / expr__add_id: the id with NULL data, replacing any old
     * entry; `setErr` is hashmap__set's result.
     */
    method Insert(id: string, setErr: int) returns (ret: int)
      requires setErr <= 0
      modifies this
      ensures ret == setErr
      ensures entries == if setErr == 0 then old(entries)[id := None] else old(entries)
    {
      if setErr == 0 {
        entries := entries[id := None];
      }
      return setErr;
    }

    /**
     * expr__add_id_val_source_count: a VALUE entry, summed with the data it
     * replaces. The old data is read through the val member of the union:
     * its double is the entry's val for every kind, and for a REF kind the
     * int read as source_count is the first bytes of metric_name, given
     * here as `overlaidCount`.
     */
    method AddIdValSourceCount(id: string, val: real, sourceCount: int, allocOk: bool, setErr: int,
                               overlaidCount: int) returns (ret: int)
      requires setErr <= 0
      modifies this
      ensures !allocOk ==> ret == -ENOMEM && entries == old(entries)
      ensures allocOk ==> ret == setErr
      ensures allocOk && setErr == 0 ==>
                entries == old(entries)[id := Some(Summed(Value(val, sourceCount), id, old(entries), overlaidCount))]
      ensures allocOk && setErr != 0 ==> entries == old(entries)
    {
      if !allocOk {
        return -ENOMEM;
      }
      var data := Value(val, sourceCount);
      ret := setErr;
      if ret == 0 {
        var old_data := if id in entries then entries[id] else None;
        if old_data.Some? {
          var count := if old_data.value.Value? then old_data.value.sourceCount else overlaidCount;
          data := Value(data.val + old_data.value.val, data.sourceCount + count);
        }
        entries := entries[id := Some(data)];
      }
    }

    /** expr__add_id_val: source_count 1. */
    method AddIdVal(id: string, val: real, allocOk: bool, setErr: int, overlaidCount: int) returns (ret: int)
      requires setErr <= 0
      modifies this
      ensures !allocOk ==> ret == -ENOMEM && entries == old(entries)
      ensures allocOk ==> ret == setErr
      ensures allocOk && setErr == 0 ==>
                entries == old(entries)[id := Some(Summed(Value(val, 1), id, old(entries), overlaidCount))]
      ensures allocOk && setErr != 0 ==> entries == old(entries)
    {
      ret := AddIdValSourceCount(id, val, 1, allocOk, setErr, overlaidCount);
    }

    /** expr__add_ref: a REF entry under a copy of the metric name, replacing any old entry. */
    method AddRef(metricName: string, metricExpr: string, allocOk: bool, dupOk: bool, setErr: int) returns (ret: int)
      requires setErr <= 0
      modifies this
      ensures !allocOk || !dupOk ==> ret == -ENOMEM && entries == old(entries)
      ensures allocOk && dupOk ==> ret == setErr
      ensures allocOk && dupOk && setErr == 0 ==> entries == old(entries)[metricName := Some(Ref(0.0, metricName, metricExpr))]
      ensures allocOk && dupOk && setErr != 0 ==> entries == old(entries)
    {
      if !allocOk || !dupOk {
        return -ENOMEM;
      }
      if setErr == 0 {
        entries := entries[metricName := Some(Ref(0.0, metricName, metricExpr))];
      }
      return setErr;
    }

    /**
     * expr__resolve_id: -1 for a missing id or NULL data; a REF entry is
     * marked REF_VALUE before its expression is parsed (`parsed` is what
     * expr__parse computed, None when it failed) and keeps that kind even
     * when the parse fails.
     */
    method ResolveId(id: Option<string>, parsed: Option<real>) returns (ret: int, data: Option<IdData>)
      modifies this
      ensures var found := old(GetId(this, id));
              if found.Err? || found.value.None? then ret == -1 && data == None && entries == old(entries)
              else match found.value.value
                case Value(_, _) => ret == 0 && data == found.value && entries == old(entries)
                case RefValue(_, _, _) => ret == 0 && data == found.value && entries == old(entries)
                case Ref(v, n, e) =>
                  var resolved := RefValue(if parsed.Some? then parsed.value else v, n, e);
                  ret == (if parsed.Some? then 0 else -1) && data == Some(resolved)
                  && entries == old(entries)[id.value := Some(resolved)]
    {
      var found := GetId(this, id);
      if found.Err? || found.value.None? {
        return -1, None;
      }
      match found.value.value
      case Value(_, _) =>
        return 0, found.value;
      case RefValue(_, _, _) =>
        return 0, found.value;
      case Ref(v, n, e) =>
        var marked := RefValue(v, n, e);
        entries := entries[id.value := Some(marked)];
        if parsed.None? {
          return -1, Some(marked);
        }
        var resolved := RefValue(parsed.value, n, e);
        entries := entries[id.value := Some(resolved)];
        return 0, Some(resolved);
    }

    /**
     * The hashmap__set loop of ids__union: every entry of `from` set into
     * this map, its data winning on shared keys. `setOk` false is a failing
     * hashmap__set, which stops the loop.
     */
    method SetAll(from: map<string, Option<IdData>>, setOk: bool) returns (ok: bool)
      modifies this
      ensures ok <==> setOk || from == map[]
      ensures ok ==> entries == old(entries) + from
    {
      ghost var start := entries;
      var rest := from;
      while rest != map[]
        invariant rest.Keys <= from.Keys
        invariant forall k :: k in rest ==> rest[k] == from[k]
        invariant SetSoFar(entries, start, from, rest.Keys)
        invariant rest != from ==> setOk
        decreases |rest|
      {
        var k :| k in rest;
        if !setOk {
          return false;
        }
        entries := entries[k := rest[k]];
        rest := rest - {k};
      }
      MergedAll(entries, start, from);
      return true;
    }

    /** expr__del_id */
    method DelId(id: string)
      modifies this
      ensures entries == old(entries) - {id}
    {
      entries := entries - {id};
    }

    /** expr__ctx_clear */
    method Clear()
      modifies this
      ensures entries == map[]
    {
      entries := map[];
    }

    /**
     * expr__find_ids: the parser adds every id it meets (`found`, with NULL
     * data as expr__add_id does), then `one` is deleted; the parser's
     * result is `parseRet`.
     */
    method FindIds(found: set<string>, one: Option<string>, parseRet: int) returns (ret: int)
      modifies this
      ensures ret == parseRet
      ensures entries == WithIds(old(entries), found) - (if one.Some? then {one.value} else {})
    {
      entries := WithIds(entries, found);
      if one.Some? {
        DelId(one.value);
      } else {
        assert entries - {} == entries;
      }
      return parseRet;
    }
  }

  /** `entries` is `start` with every entry of `from` outside `pending` set into it. */
  ghost predicate SetSoFar(entries: map<string, Option<IdData>>, start: map<string, Option<IdData>>,
                           from: map<string, Option<IdData>>, pending: set<string>)
  {
    (forall k :: k in entries <==> k in start || (k in from && k !in pending))
    && (forall k :: k in entries ==> entries[k] == if k in from && k !in pending then from[k] else start[k])
  }

  lemma MergedAll(entries: map<string, Option<IdData>>, start: map<string, Option<IdData>>,
                  from: map<string, Option<IdData>>)
    requires SetSoFar(entries, start, from, {})
    ensures entries == start + from
  {
  }

  /** The data a VALUE entry carries after expr__add_id_val_source_count. */
  function Summed(data: IdData, id: string, entries: map<string, Option<IdData>>, overlaidCount: int): (r: IdData)
    requires data.Value?
    ensures r.Value?
    ensures id !in entries || entries[id].None? ==> r == data
    ensures id in entries && entries[id].Some? && entries[id].value.Value? ==>
              r == Value(data.val + entries[id].value.val, data.sourceCount + entries[id].value.sourceCount)
  {
    if id in entries && entries[id].Some? then
      var o := entries[id].value;
      Value(data.val + o.val, data.sourceCount + (if o.Value? then o.sourceCount else overlaidCount))
    else data
  }

  /** Adding two values to a fresh id sums them and their source counts. */
  lemma AddTwiceSums(entries: map<string, Option<IdData>>, id: string, v1: real, c1: int, v2: real, c2: int, k: int)
    requires id !in entries
    ensures var once := entries[id := Some(Summed(Value(v1, c1), id, entries, k))];
            Summed(Value(v2, c2), id, once, k) == Value(v1 + v2, c1 + c2)
  {
  }

  /** Every id of a set entered with NULL data. */
  function WithIds(entries: map<string, Option<IdData>>, ids: set<string>): (r: map<string, Option<IdData>>)
    ensures r.Keys == entries.Keys + ids
    ensures forall k :: k in ids ==> r[k] == None
    ensures forall k :: k in entries && k !in ids ==> r[k] == entries[k]
  {
    map k | k in entries.Keys + ids :: if k in ids then None else entries[k]
  }

  /** expr__get_id: -1 for a NULL ctx or id and for an absent key; otherwise the entry's data. */
  function GetId(ctx: IdMap?, id: Option<string>): (r: Result<Option<IdData>>)
    reads ctx
    ensures r.Ok? <==> ctx != null && id.Some? && id.value in ctx.entries
    ensures r.Err? ==> r.code == -1
    ensures r.Ok? ==> r.value == ctx.entries[id.value]
  {
    if ctx == null || id.None? then Err(-1)
    else if id.value in ctx.entries then Ok(ctx.entries[id.value])
    else Err(-1)
  }

  /** expr__subset_of_ids: every needle found in the haystack by expr__get_id. */
  function SubsetOfIds(haystack: IdMap?, needles: IdMap): (r: bool)
    reads haystack, needles
    ensures r <==> (haystack != null && needles.entries.Keys <= haystack.entries.Keys)
                   || (haystack == null && needles.entries == map[])
  {
    forall k | k in needles.entries :: GetId(haystack, Some(k)).Ok?
  }

  /**
   * ids__union: a NULL side gives the other; otherwise the smaller map's
   * entries are set into the larger one, whose map is returned. `setOk`
   * false is a hashmap__set failure, after which both maps are freed and
   * NULL returned.
   */
  method IdsUnion(ids1: IdMap?, ids2: IdMap?, setOk: bool) returns (r: IdMap?)
    requires ids1 != null && ids2 != null ==> ids1 != ids2
    modifies ids1, ids2
    ensures ids1 == null ==> r == ids2
    ensures ids1 != null && ids2 == null ==> r == ids1
    ensures ids1 != null && ids2 != null ==>
              var big := if |old(ids1.entries)| < |old(ids2.entries)| then ids2 else ids1;
              var small := if |old(ids1.entries)| < |old(ids2.entries)| then ids1 else ids2;
              if !setOk && old(small.entries) != map[] then r == null
              else r == big && r.entries == old(big.entries) + old(small.entries)
                   && r.entries.Keys == old(ids1.entries).Keys + old(ids2.entries).Keys
    ensures r != null ==> (r == ids1 || r == ids2)
    ensures ids1 != null && ids2 != null && r != null ==>
              (r == ids1 ==> unchanged(ids2)) && (r == ids2 ==> unchanged(ids1))
  {
    if ids1 == null {
      return ids2;
    }
    if ids2 == null {
      return ids1;
    }
    var big, small := ids1, ids2;
    if |ids1.entries| < |ids2.entries| {
      big, small := ids2, ids1;
    }
    var ok := big.SetAll(small.entries, setOk);
    if !ok {
      return null;
    }
    return big;
  }
}
