/**
 * `addFilters`: the pass over the caller's `$filters` array that adds
 * `orderBy`, `limit` and `paginate` calls to a query builder.
 */
module Filters {
  import opened Schema

  /** A call `addFilters` makes on the builder. */
  datatype Call = OrderBy(field: string, direction: Value) | Limit(count: Value) | Paginate(perPage: Value)

  /** The query builder, reduced to the calls made on it so far, in order. */
  class QueryBuilder {
    var calls: seq<Call>

    constructor ()
      ensures calls == []
    {
      calls := [];
    }
  }

  /** The call one `(key, value)` entry makes, if its key is recognised. */
  function CallFor(key: string, v: Value): (r: Option<Call>)
    ensures r.Some? <==> key in {"orderBy", "limit", "paginate"}
    ensures r.Some? && r.value.OrderBy? ==> r.value.field == "created_at"
  {
    if key == "orderBy" then Some(OrderBy("created_at", v))
    else if key == "limit" then Some(Limit(v))
    else if key == "paginate" then Some(Paginate(v))
    else None
  }

  /** Some entry of the array has the key "paginate". */
  predicate HasPaginate(filters: FilterArray)
  {
    exists i :: 0 <= i < |filters| && filters[i].0 == "paginate"
  }

  /**
   * The calls `addFilters` makes for `filters`: one per recognised entry, in
   * the order of the array, ending with the first `paginate`, after which
   * nothing more is applied.
   */
  function FilterCalls(filters: FilterArray): (r: seq<Call>)
    ensures |r| <= |filters|
  {
    if filters == [] then []
    else
      var key := filters[0].0;
      var rest := if key == "paginate" then [] else FilterCalls(filters[1..]);
      match CallFor(key, filters[0].1)
      case None => rest
      case Some(call) => [call] + rest
  }

  /**
   * `addFilters($objectBuilder, $filters)`: adds the calls to the builder and,
   * at the first `paginate`, returns what `paginate` returns (here its page
   * size) without looking at the rest of the array.
   */
  method AddFilters(builder: QueryBuilder, filters: FilterArray) returns (page: Option<Value>)
    modifies builder
    ensures builder.calls == old(builder.calls) + FilterCalls(filters)
    ensures page.Some? <==> HasPaginate(filters)
    ensures page.Some? ==> exists i :: 0 <= i < |filters| && filters[i].0 == "paginate"
                                     && !HasPaginate(filters[..i]) && page.value == filters[i].1
  {
    page := None;
    if |filters| > 0 {
      var i := 0;
      while i < |filters|
        invariant 0 <= i <= |filters|
        invariant !HasPaginate(filters[..i])
        invariant builder.calls == old(builder.calls) + FilterCalls(filters[..i])
      {
        var (key, filter) := filters[i];
        FilterCallsStep(filters, i);
        if key == "orderBy" {
          var field := "created_at";
          builder.calls := builder.calls + [OrderBy(field, filter)];
        }
        if key == "limit" {
          builder.calls := builder.calls + [Limit(filter)];
        }
        if key == "paginate" {
          builder.calls := builder.calls + [Paginate(filter)];
          page := Some(filter);
          FilterCallsAfterPaginate(filters, i);
          assert filters[i].0 == "paginate" && !HasPaginate(filters[..i]) && page.value == filters[i].1;
          return;
        }
        assert filters[..i + 1] == filters[..i] + [filters[i]];
        i := i + 1;
      }
      assert filters[..i] == filters;
    }
    assert !HasPaginate(filters) by {
      if |filters| == 0 {
      } else {
        assert filters[..|filters|] == filters;
      }
    }
  }

  /**
   * The calls for two arrays placed one after the other: those of the second
   * are made only when the first has no `paginate`.
   */
  lemma {:induction false} FilterCallsAppend(f: FilterArray, g: FilterArray)
    ensures FilterCalls(f + g) == if HasPaginate(f) then FilterCalls(f) else FilterCalls(f) + FilterCalls(g)
  {
    if f == [] {
      assert f + g == g;
    } else {
      assert (f + g)[0] == f[0];
      assert (f + g)[1..] == f[1..] + g;
      FilterCallsAppend(f[1..], g);
      HasPaginateCons(f);
    }
  }

  /** An array has a `paginate` entry when its head or its tail has one. */
  lemma HasPaginateCons(f: FilterArray)
    requires f != []
    ensures HasPaginate(f) <==> f[0].0 == "paginate" || HasPaginate(f[1..])
  {
    if HasPaginate(f[1..]) {
      var j :| 0 <= j < |f[1..]| && f[1..][j].0 == "paginate";
      assert f[j + 1].0 == "paginate";
    }
    if HasPaginate(f) && f[0].0 != "paginate" {
      var j :| 0 <= j < |f| && f[j].0 == "paginate";
      assert f[1..][j - 1].0 == "paginate";
    }
  }

  /** A single entry makes exactly the call its key names, if any. */
  lemma FilterCallsSingle(key: string, v: Value)
    ensures FilterCalls([(key, v)]) == match CallFor(key, v) case None => [] case Some(call) => [call]
  {
  }

  /** One step of the loop: the prefix grows by entry i. */
  lemma FilterCallsStep(filters: FilterArray, i: nat)
    requires i < |filters|
    requires !HasPaginate(filters[..i])
    ensures FilterCalls(filters[..i + 1])
            == FilterCalls(filters[..i]) + match CallFor(filters[i].0, filters[i].1) case None => [] case Some(call) => [call]
  {
    assert filters[..i + 1] == filters[..i] + [(filters[i].0, filters[i].1)];
    FilterCallsAppend(filters[..i], [(filters[i].0, filters[i].1)]);
  }

  /**
   * Entries after the first `paginate` change nothing: the calls are those of
   * the array cut just after it.
   */
  lemma FilterCallsAfterPaginate(filters: FilterArray, i: nat)
    requires i < |filters| && filters[i].0 == "paginate"
    ensures FilterCalls(filters) == FilterCalls(filters[..i + 1])
  {
    assert filters == filters[..i + 1] + filters[i + 1..];
    assert filters[..i + 1][i].0 == "paginate";
    FilterCallsAppend(filters[..i + 1], filters[i + 1..]);
  }

  /**
   * The first `paginate` is the last call made, and no `orderBy` or `limit`
   * placed after it is applied.
   */
  lemma PaginateStops(filters: FilterArray, i: nat)
    requires i < |filters| && filters[i].0 == "paginate" && !HasPaginate(filters[..i])
    ensures FilterCalls(filters) == FilterCalls(filters[..i]) + [Paginate(filters[i].1)]
  {
    FilterCallsAfterPaginate(filters, i);
    FilterCallsStep(filters, i);
  }

  /** An entry whose key is not recognised can be dropped without changing the calls. */
  lemma UnknownKeyIgnored(filters: FilterArray, i: nat)
    requires i < |filters| && filters[i].0 !in {"orderBy", "limit", "paginate"}
    ensures FilterCalls(filters[..i] + filters[i + 1..]) == FilterCalls(filters)
  {
    assert filters == filters[..i] + ([filters[i]] + filters[i + 1..]);
    FilterCallsAppend(filters[..i], [filters[i]] + filters[i + 1..]);
    FilterCallsAppend(filters[..i], filters[i + 1..]);
    FilterCallsAppend([filters[i]], filters[i + 1..]);
    assert !HasPaginate([filters[i]]);
  }

  /** Every `orderBy` call sorts on `created_at`, whatever the entry's value. */
  lemma {:induction false} OrderByOnCreatedAt(filters: FilterArray)
    ensures forall k :: 0 <= k < |FilterCalls(filters)| && FilterCalls(filters)[k].OrderBy?
                        ==> FilterCalls(filters)[k].field == "created_at"
  {
    if filters != [] {
      OrderByOnCreatedAt(filters[1..]);
    }
  }

  /** Only the first `paginate` can appear among the calls, and only as the last one. */
  lemma {:induction false} PaginateOnlyLast(filters: FilterArray)
    ensures forall k :: 0 <= k < |FilterCalls(filters)| - 1 ==> !FilterCalls(filters)[k].Paginate?
    ensures !HasPaginate(filters) ==> forall k :: 0 <= k < |FilterCalls(filters)| ==> !FilterCalls(filters)[k].Paginate?
  {
    if filters != [] {
      PaginateOnlyLast(filters[1..]);
      HasPaginateCons(filters);
    }
  }
}
