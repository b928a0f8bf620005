/**
 * The inventory controller: the listing pipeline of `getInventario` (filter
 * validation, query construction, date-descending retrieval, and the
 * optional month grouping with a per-month sort on `valor`), the status
 * rules of the single-record handlers, and the statistics of `getStats`.
 * The database is a sequence of records in insertion order; `find`, `sort`
 * and `aggregate` are functions over it.
 */
module InventoryController {
  import opened Wrappers
  import opened Calendar
  import opened Sorting
  import opened Grouping
  import opened InventorySchema
  import opened InventoryModel

  /** The HTTP status a handler answers with: 200, 201, 400, 404 and 500. */
  datatype Status = Ok | Created | BadRequest | NotFound | ServerError

  /** JavaScript truthiness of an optional string: present and not `''`. */
  predicate Given(v: Option<string>)
  {
    v.Some? && v.value != ""
  }

  /**
   * The `fecha` condition of a query. Each bound is a `Date` built from the
   * filter text; an inner None is an Invalid Date.
   */
  datatype Range = Range(gte: Option<Option<DateTime>>, lte: Option<Option<DateTime>>)

  /** The query object `filter` of `getInventario`. */
  datatype Query = Query(estado: Option<Estado>, relevancia: Option<Relevancia>, fecha: Option<Range>)

  /** The query a validated filter stands for. */
  function QueryFor(f: Filter, parse: DateParser): (q: Query)
    requires ValidFilter(f)
    ensures q.estado.Some? <==> Given(f.estado)
    ensures q.relevancia.Some? <==> Given(f.relevancia)
    ensures q.fecha.Some? <==> Given(f.fechaInicio) || Given(f.fechaFin)
    ensures q.fecha.Some? ==>
              && (q.fecha.value.gte.Some? <==> Given(f.fechaInicio))
              && (q.fecha.value.lte.Some? <==> Given(f.fechaFin))
  {
    Query(
      if Given(f.estado) then ParseEstado(f.estado.value) else None,
      if Given(f.relevancia) then ParseRelevancia(f.relevancia.value) else None,
      if Given(f.fechaInicio) || Given(f.fechaFin) then
        Some(Range(
          if Given(f.fechaInicio) then Some(parse(f.fechaInicio.value)) else None,
          if Given(f.fechaFin) then Some(parse(f.fechaFin.value)) else None))
      else None)
  }

  /** Builds the query one condition at a time, as the handler does. */
  method BuildQuery(f: Filter, parse: DateParser) returns (q: Query)
    requires ValidFilter(f)
    ensures q == QueryFor(f, parse)
  {
    q := Query(None, None, None);
    if Given(f.estado) {
      q := q.(estado := ParseEstado(f.estado.value));
    }
    if Given(f.relevancia) {
      q := q.(relevancia := ParseRelevancia(f.relevancia.value));
    }
    if Given(f.fechaInicio) || Given(f.fechaFin) {
      var range := Range(None, None);
      if Given(f.fechaInicio) {
        range := range.(gte := Some(parse(f.fechaInicio.value)));
      }
      if Given(f.fechaFin) {
        range := range.(lte := Some(parse(f.fechaFin.value)));
      }
      q := q.(fecha := Some(range));
    }
  }

  /** Every date bound of the query is a valid date, so the driver can cast it. */
  predicate Castable(q: Query)
  {
    q.fecha.None?
    || ((q.fecha.value.gte.None? || q.fecha.value.gte.value.Some?)
        && (q.fecha.value.lte.None? || q.fecha.value.lte.value.Some?))
  }

  /** The driver's reading of a query: exact matches and inclusive date bounds. */
  predicate Matches(q: Query, it: Item)
  {
    (q.estado.Some? ==> it.estado == q.estado.value)
    && (q.relevancia.Some? ==> it.relevancia == q.relevancia.value)
    && (q.fecha.Some? ==>
          && (q.fecha.value.gte.Some? && q.fecha.value.gte.value.Some? ==>
                TimeValue(q.fecha.value.gte.value.value) <= TimeValue(it.fecha))
          && (q.fecha.value.lte.Some? && q.fecha.value.lte.value.Some? ==>
                TimeValue(it.fecha) <= TimeValue(q.fecha.value.lte.value.value)))
  }

  /**
   * `Inventory.find(q).sort({ fecha: -1 })`: the matching records, newest
   * first, ties in insertion order; None when a bound cannot be cast.
   */
  function Find(db: seq<Item>, q: Query): (r: Option<seq<Item>>)
    ensures r.Some? <==> Castable(q)
    ensures r.Some? ==> Sorted(r.value, FechaRank, true)
    ensures r.Some? ==> forall it :: multiset(r.value)[it] == if Matches(q, it) then multiset(db)[it] else 0
  {
    if Castable(q) then
      SelectCounts(db, it => Matches(q, it));
      SortBySorted(Select(db, it => Matches(q, it)), FechaRank, true);
      Some(SortBy(Select(db, it => Matches(q, it)), FechaRank, true))
    else None
  }

  /** Every non-empty date text of the filter is a date. */
  predicate DatesParse(f: Filter, parse: DateParser)
  {
    (Given(f.fechaInicio) ==> parse(f.fechaInicio.value).Some?)
    && (Given(f.fechaFin) ==> parse(f.fechaFin.value).Some?)
  }

  /** What a filter asks of a record, read directly off the filter's fields. */
  predicate Admits(f: Filter, parse: DateParser, it: Item)
    requires DatesParse(f, parse)
  {
    (Given(f.estado) ==> EstadoName(it.estado) == f.estado.value)
    && (Given(f.relevancia) ==> RelevanciaName(it.relevancia) == f.relevancia.value)
    && (Given(f.fechaInicio) ==> TimeValue(parse(f.fechaInicio.value).value) <= TimeValue(it.fecha))
    && (Given(f.fechaFin) ==> TimeValue(it.fecha) <= TimeValue(parse(f.fechaFin.value).value))
  }

  /**
   * The query built from a valid filter can be cast exactly when its
   * non-empty date texts are dates, and then it matches a record exactly
   * when the filter admits it: `''` and absent fields add no condition,
   * `estado` and `relevancia` match exactly, and both date bounds are
   * inclusive.
   */
  lemma QueryMeaning(f: Filter, parse: DateParser, it: Item)
    requires ValidFilter(f)
    ensures Castable(QueryFor(f, parse)) <==> DatesParse(f, parse)
    ensures DatesParse(f, parse) ==> (Matches(QueryFor(f, parse), it) <==> Admits(f, parse, it))
  {
    var q := QueryFor(f, parse);
    if Given(f.estado) {
      EnumNamesInjective(it.estado, q.estado.value, Hogar, Hogar);
    }
    if Given(f.relevancia) {
      EnumNamesInjective(Importante, Importante, it.relevancia, q.relevancia.value);
    }
  }

  function MonthOfItem(it: Item): MonthKey
  {
    MonthOf(it.fecha)
  }

  function ValorRank(it: Item): real
  {
    it.valor
  }

  /** `'Alto'` sorts by `b.valor - a.valor` (descending), anything else ascending. */
  function Descending(o: ValorOrden): bool
  {
    o == Alto
  }

  /** Each month's records sorted on `valor`. */
  function SortedGroups(s: seq<Item>, ks: seq<MonthKey>, o: ValorOrden): (m: map<MonthKey, seq<Item>>)
    ensures forall k :: k in ks ==> k in m && m[k] == SortBy(Group(s, MonthOfItem, k), ValorRank, Descending(o))
  {
    map k | k in ks :: SortBy(Group(s, MonthOfItem, k), ValorRank, Descending(o))
  }

  /**
   * The reordering of `getInventario` when `valorOrden` is given: months in
   * the order of their first record, each month's records sorted on `valor`.
   */
  function ByMonthThenValor(s: seq<Item>, o: ValorOrden): seq<Item>
  {
    var ks := Keys(s, MonthOfItem);
    Concat(ks, SortedGroups(s, ks, o))
  }

  /** What `getInventario` answers with for a validated filter whose query the driver ran. */
  function Listing(found: seq<Item>, f: Filter): seq<Item>
    requires ValidFilter(f)
  {
    if Given(f.valorOrden) then ByMonthThenValor(found, ParseValorOrden(f.valorOrden.value).value) else found
  }

  lemma SortedGroupsKeyed(s: seq<Item>, o: ValorOrden)
    ensures var ks := Keys(s, MonthOfItem);
            forall k :: k in ks ==>
              var g := SortedGroups(s, ks, o);
              k in g && g[k] != [] && Keyed(g[k], MonthOfItem, k)
              && multiset(g[k]) == multiset(Group(s, MonthOfItem, k))
  {
    var ks := Keys(s, MonthOfItem);
    var g := SortedGroups(s, ks, o);
    KeysSpec(s, MonthOfItem);
    forall k | k in ks
      ensures k in g && g[k] != [] && Keyed(g[k], MonthOfItem, k)
      ensures multiset(g[k]) == multiset(Group(s, MonthOfItem, k))
    {
      var grp := Group(s, MonthOfItem, k);
      GroupKeyed(s, MonthOfItem, k);
      forall i | 0 <= i < |g[k]| ensures MonthOfItem(g[k][i]) == k {
        assert g[k][i] in multiset(grp);
      }
    }
  }

  /** The reordering adds, drops and duplicates no record. */
  lemma ReorderPermutes(s: seq<Item>, o: ValorOrden)
    ensures multiset(ByMonthThenValor(s, o)) == multiset(s)
  {
    var ks := Keys(s, MonthOfItem);
    KeysSpec(s, MonthOfItem);
    SortedGroupsKeyed(s, o);
    ConcatMultiset(ks, SortedGroups(s, ks, o), GroupMap(s, MonthOfItem, ks));
    GroupsPartition(s, MonthOfItem, ks);
  }

  /** After the reordering, the records of one month stand together. */
  lemma ReorderContiguous(s: seq<Item>, o: ValorOrden)
    ensures Contiguous(ByMonthThenValor(s, o), MonthOfItem)
  {
    KeysSpec(s, MonthOfItem);
    SortedGroupsKeyed(s, o);
    ConcatContiguous(Keys(s, MonthOfItem), SortedGroups(s, Keys(s, MonthOfItem), o), MonthOfItem);
  }

  /** The months come in the order in which their first record came in the input. */
  lemma ReorderKeepsMonthOrder(s: seq<Item>, o: ValorOrden)
    ensures Keys(ByMonthThenValor(s, o), MonthOfItem) == Keys(s, MonthOfItem)
  {
    KeysSpec(s, MonthOfItem);
    SortedGroupsKeyed(s, o);
    ConcatKeys(Keys(s, MonthOfItem), SortedGroups(s, Keys(s, MonthOfItem), o), MonthOfItem);
  }

  /**
   * Within each month the records are ordered on `valor` (non-increasing for
   * `'Alto'`, non-decreasing otherwise), records of equal `valor` keep their
   * date-descending order, and the month holds the same records as before.
   */
  lemma ReorderSortsEachMonth(s: seq<Item>, o: ValorOrden, k: MonthKey)
    ensures var g := Group(ByMonthThenValor(s, o), MonthOfItem, k);
            && Sorted(g, ValorRank, Descending(o))
            && (forall v :: WithRank(g, ValorRank, v) == WithRank(Group(s, MonthOfItem, k), ValorRank, v))
            && multiset(g) == multiset(Group(s, MonthOfItem, k))
  {
    var ks := Keys(s, MonthOfItem);
    var grp := Group(s, MonthOfItem, k);
    KeysSpec(s, MonthOfItem);
    SortedGroupsKeyed(s, o);
    ConcatGroup(ks, SortedGroups(s, ks, o), MonthOfItem, k);
    var g := Group(ByMonthThenValor(s, o), MonthOfItem, k);
    assert g == SortBy(grp, ValorRank, Descending(o));
    SortBySorted(grp, ValorRank, Descending(o));
    forall v ensures WithRank(g, ValorRank, v) == WithRank(grp, ValorRank, v) {
      SortByStable(grp, ValorRank, Descending(o), v);
    }
  }

  /** The `reduce` of `getInventario`: records pushed onto their month's list, months in first-seen order. */
  method GroupByMonth(items: seq<Item>) returns (keys: seq<MonthKey>, groups: map<MonthKey, seq<Item>>)
    ensures keys == Keys(items, MonthOfItem)
    ensures forall k :: k in groups <==> k in keys
    ensures forall k :: k in keys ==> groups[k] == Group(items, MonthOfItem, k)
  {
    keys, groups := [], map[];
    for i := 0 to |items|
      invariant keys == Keys(items[..i], MonthOfItem)
      invariant forall k :: k in groups <==> k in keys
      invariant forall k :: k in keys ==> groups[k] == Group(items[..i], MonthOfItem, k)
    {
      var item := items[i];
      var mes := MonthOfItem(item);
      assert items[..i + 1][..i] == items[..i] && items[..i + 1][i] == item;
      KeysSpec(items[..i], MonthOfItem);
      if mes !in groups {
        groups := groups[mes := []];
        keys := keys + [mes];
      }
      groups := groups[mes := groups[mes] + [item]];
    }
    assert items[..|items|] == items;
  }

  /** The first `for…in` loop: each month's list sorted on `valor`. */
  method SortGroups(keys: seq<MonthKey>, groups: map<MonthKey, seq<Item>>, o: ValorOrden)
    returns (sorted: map<MonthKey, seq<Item>>)
    requires Distinct(keys)
    requires forall k :: k in groups <==> k in keys
    ensures forall k :: k in sorted <==> k in keys
    ensures forall k :: k in keys ==> sorted[k] == SortBy(groups[k], ValorRank, Descending(o))
  {
    sorted := groups;
    for j := 0 to |keys|
      invariant forall k :: k in sorted <==> k in keys
      invariant forall i :: 0 <= i < j ==> sorted[keys[i]] == SortBy(groups[keys[i]], ValorRank, Descending(o))
      invariant forall i :: j <= i < |keys| ==> sorted[keys[i]] == groups[keys[i]]
    {
      var mes := keys[j];
      var list := SortBy(sorted[mes], ValorRank, Descending(o));
      assert forall i :: 0 <= i < |keys| && i != j ==> keys[i] != mes;
      sorted := sorted[mes := list];
    }
  }

  /** The second `for…in` loop: the month lists pushed one after another. */
  method FlattenGroups(keys: seq<MonthKey>, groups: map<MonthKey, seq<Item>>) returns (out: seq<Item>)
    requires forall k :: k in keys ==> k in groups
    ensures out == Concat(keys, groups)
  {
    out := [];
    for j := 0 to |keys|
      invariant out == Concat(keys[..j], groups)
    {
      assert keys[..j + 1][..j] == keys[..j];
      out := out + groups[keys[j]];
    }
    assert keys[..|keys|] == keys;
  }

  /**
   * `getInventario`: 400 for a filter the schema rejects, 500 when the
   * driver cannot run the query, otherwise 200 with the listing.
   */
  method GetInventario(db: seq<Item>, query: Body, parse: DateParser) returns (status: Status, body: seq<Item>)
    ensures status == BadRequest <==> ParseFilter(query).Failure?
    ensures ParseFilter(query).Success? ==>
              var f := ParseFilter(query).value;
              var found := Find(db, QueryFor(f, parse));
              && (status == ServerError <==> found.None?)
              && (found.Some? ==> status == Ok && body == Listing(found.value, f))
    ensures status != Ok ==> body == []
  {
    var parsed := ParseFilter(query);
    if parsed.Failure? {
      return BadRequest, [];
    }
    var f := parsed.value;
    var q := BuildQuery(f, parse);
    var found := Find(db, q);
    if found.None? {
      return ServerError, [];
    }
    var inventario := found.value;
    if Given(f.valorOrden) {
      var o := ParseValorOrden(f.valorOrden.value).value;
      var keys, groups := GroupByMonth(inventario);
      KeysSpec(inventario, MonthOfItem);
      groups := SortGroups(keys, groups, o);
      ConcatSame(keys, groups, SortedGroups(inventario, keys, o));
      body := FlattenGroups(keys, groups);
      return Ok, body;
    }
    return Ok, inventario;
  }

  /**
   * For a valid filter whose date texts are dates, the listing holds every
   * stored record the filter admits, as often as it is stored, and no other.
   */
  lemma ListingContents(db: seq<Item>, f: Filter, parse: DateParser, it: Item)
    requires ValidFilter(f) && DatesParse(f, parse)
    ensures Find(db, QueryFor(f, parse)).Some?
    ensures multiset(Listing(Find(db, QueryFor(f, parse)).value, f))[it]
         == if Admits(f, parse, it) then multiset(db)[it] else 0
  {
    var q := QueryFor(f, parse);
    QueryMeaning(f, parse, it);
    var found := Find(db, q).value;
    SelectSpec(db, r => Matches(q, r), it);
    assert multiset(found) == multiset(Select(db, r => Matches(q, r)));
    if Given(f.valorOrden) {
      ReorderPermutes(found, ParseValorOrden(f.valorOrden.value).value);
    }
  }

  /** Without `valorOrden` the listing is newest first. */
  lemma ListingNewestFirst(db: seq<Item>, f: Filter, parse: DateParser)
    requires ValidFilter(f) && DatesParse(f, parse) && !Given(f.valorOrden)
    ensures Find(db, QueryFor(f, parse)).Some?
    ensures Sorted(Listing(Find(db, QueryFor(f, parse)).value, f), FechaRank, true)
  {
    var q := QueryFor(f, parse);
    SortBySorted(Select(db, r => Matches(q, r)), FechaRank, true);
  }

  /** A filter without conditions lists every record, newest first. */
  lemma EmptyFilterListsAll(db: seq<Item>, f: Filter, parse: DateParser)
    requires ValidFilter(f)
    requires !Given(f.estado) && !Given(f.relevancia) && !Given(f.fechaInicio) && !Given(f.fechaFin)
    ensures Find(db, QueryFor(f, parse)) == Some(SortBy(db, FechaRank, true))
  {
    var q := QueryFor(f, parse);
    SelectAll(db, it => Matches(q, it));
  }

  /** Inserting into a descending sort of two: `x` goes to the front when it ranks above both. */
  lemma InsertFirstOfTwo<T>(x: T, y: T, z: T, rank: T -> real)
    requires rank(x) > rank(y) && rank(x) > rank(z)
    ensures Insert([y, z], x, rank, true) == [x, y, z]
  {
    assert [y, z][..1] == [y];
    assert Insert([y], x, rank, true) == [x, y];
  }

  lemma SortOne<T>(x: T, rank: T -> real, desc: bool)
    ensures SortBy([x], rank, desc) == [x]
  {
    assert [x][..0] == [];
  }

  /** A descending sort of two elements that come in ascending order swaps them. */
  lemma SortTwoDescending<T>(x: T, y: T, rank: T -> real)
    requires rank(x) < rank(y)
    ensures SortBy([x, y], rank, true) == [y, x]
  {
    assert [x, y][..1] == [x];
    SortOne(x, rank, true);
    assert Insert([x], y, rank, true) == [y, x];
  }

  /** A descending sort of three elements that come in ascending order reverses them. */
  lemma SortThreeDescending<T>(x: T, y: T, z: T, rank: T -> real)
    requires rank(x) < rank(y) < rank(z)
    ensures SortBy([x, y, z], rank, true) == [z, y, x]
  {
    SortTwoDescending(x, y, rank);
    InsertFirstOfTwo(z, y, x, rank);
    assert [x, y, z][..2] == [x, y];
  }

  /** The months of a listing `c, b, a` where `b` and `a` share a month and `c` does not. */
  lemma MonthKeysOfThree<T, K>(a: T, b: T, c: T, key: T -> K)
    requires key(a) == key(b) != key(c)
    ensures Keys([c, b, a], key) == [key(c), key(a)]
  {
    var s := [c, b, a];
    assert s[..2] == [c, b] && [c, b][..1] == [c] && [c][..0] == [];
    assert Keys([c], key) == [key(c)];
    assert Keys([c, b], key) == [key(c), key(a)];
  }

  lemma MonthGroupsOfThree<T, K>(a: T, b: T, c: T, key: T -> K)
    requires key(a) == key(b) != key(c)
    ensures Group([c, b, a], key, key(a)) == [b, a]
    ensures Group([c, b, a], key, key(c)) == [c]
  {
    var s := [c, b, a];
    assert s[..2] == [c, b] && [c, b][..1] == [c] && [c][..0] == [];
    assert Group([c], key, key(a)) == [];
    assert Group([c], key, key(c)) == [c];
    assert Group([c, b], key, key(a)) == [b];
    assert Group([c, b], key, key(c)) == [c];
  }

  /** The per-month sort of `c, b, a` when `c` has a month of its own and `a` is worth more than `b`. */
  lemma SortedGroupsOfThree(a: Item, b: Item, c: Item)
    requires MonthOfItem(a) == MonthOfItem(b) != MonthOfItem(c)
    requires a.valor > b.valor
    ensures var g := SortedGroups([c, b, a], [MonthOfItem(c), MonthOfItem(a)], Alto);
            g[MonthOfItem(c)] == [c] && g[MonthOfItem(a)] == [a, b]
  {
    var s, m, n := [c, b, a], MonthOfItem(a), MonthOfItem(c);
    var g := SortedGroups(s, [n, m], Alto);
    assert g[n] == SortBy(Group(s, MonthOfItem, n), ValorRank, true);
    assert g[m] == SortBy(Group(s, MonthOfItem, m), ValorRank, true);
    MonthGroupsOfThree(a, b, c, MonthOfItem);
    SortOne(c, ValorRank, true);
    SortTwoDescending(b, a, ValorRank);
  }

  /**
   * `valorOrden=Alto` on a listing `c, b, a` where `c` has a month of its
   * own and `a` is worth more than `b`: `c`'s month stays first because `c`
   * came first, and `a` moves before `b`.
   */
  lemma AltoListingOfThree(a: Item, b: Item, c: Item)
    requires MonthOfItem(a) == MonthOfItem(b) != MonthOfItem(c)
    requires a.valor > b.valor
    ensures Listing([c, b, a], Filter(None, None, Some("Alto"), None, None)) == [c, a, b]
  {
    var m, n := MonthOfItem(a), MonthOfItem(c);
    MonthKeysOfThree(a, b, c, MonthOfItem);
    SortedGroupsOfThree(a, b, c);
    var f := Filter(None, None, Some("Alto"), None, None);
    var g := SortedGroups([c, b, a], [n, m], Alto);
    assert Listing([c, b, a], f) == ByMonthThenValor([c, b, a], Alto) by {
      assert ParseValorOrden("Alto") == Some(Alto);
    }
    assert ByMonthThenValor([c, b, a], Alto) == Concat([n, m], g);
    ConcatOfTwo(n, m, g);
  }

  lemma ConcatOfTwo<K, T>(n: K, m: K, g: map<K, seq<T>>)
    requires n in g && m in g
    ensures Concat([n, m], g) == g[n] + g[m]
  {
    assert [n, m][..1] == [n];
    assert [n][..0] == [];
    assert Concat([n], g) == [] + g[n] == g[n];
  }

  /**
   * Records A (15 January 2024, `valor` 100), B (20 January, 50) and C
   * (1 February, 10), listed with `valorOrden=Alto`: the query returns
   * C, B, A and the listing is C, A, B.
   */
  lemma AltoListingExample(parse: DateParser)
    ensures var a := Item("A", "A", "A", 100.0, Importante, Hogar, DateTime(2024, 1, 15, 0));
            var b := Item("B", "B", "B", 50.0, Importante, Hogar, DateTime(2024, 1, 20, 0));
            var c := Item("C", "C", "C", 10.0, Importante, Hogar, DateTime(2024, 2, 1, 0));
            var f := Filter(None, None, Some("Alto"), None, None);
            && Find([a, b, c], QueryFor(f, parse)) == Some([c, b, a])
            && Listing([c, b, a], f) == [c, a, b]
  {
    var a := Item("A", "A", "A", 100.0, Importante, Hogar, DateTime(2024, 1, 15, 0));
    var b := Item("B", "B", "B", 50.0, Importante, Hogar, DateTime(2024, 1, 20, 0));
    var c := Item("C", "C", "C", 10.0, Importante, Hogar, DateTime(2024, 2, 1, 0));
    var f := Filter(None, None, Some("Alto"), None, None);
    assert FechaRank(a) < FechaRank(b) < FechaRank(c) by {
      assert DaysBeforeMonth(2024, 1) == 0 && DaysBeforeMonth(2024, 2) == 31;
    }
    EmptyFilterListsAll([a, b, c], f, parse);
    SortThreeDescending(a, b, c, FechaRank);
    AltoListingOfThree(a, b, c);
  }

  /** A handler's answer: its status and the record it carries, if any. */
  datatype Reply = Reply(status: Status, data: Option<Item>)

  /** A handler's answer together with the database after it. */
  datatype Outcome = Outcome(reply: Reply, db: seq<Item>)

  /** The position of the first record with identifier `id`, as `findById` locates it. */
  function FindIndex(db: seq<Item>, id: string): (r: Option<nat>)
    ensures r.Some? ==> r.value < |db| && db[r.value].id == id
                        && forall j :: 0 <= j < r.value ==> db[j].id != id
    ensures r.None? <==> forall j :: 0 <= j < |db| ==> db[j].id != id
  {
    if db == [] then None
    else if db[0].id == id then Some(0)
    else
      var r := FindIndex(db[1..], id);
      if r.None? then None else Some(r.value + 1)
  }

  /** `Inventory.findById(id)`. */
  function FindById(db: seq<Item>, id: string): (r: Option<Item>)
    ensures r.Some? ==> r.value in db && r.value.id == id
    ensures r.None? <==> forall i :: 0 <= i < |db| ==> db[i].id != id
  {
    var i := FindIndex(db, id);
    if i.None? then None else Some(db[i.value])
  }

  /** `getInventarioById`: 404 when no record has the identifier, otherwise 200 with it. */
  function GetInventarioById(db: seq<Item>, id: string): (r: Reply)
    ensures r.status == NotFound <==> forall i :: 0 <= i < |db| ==> db[i].id != id
    ensures r.status == NotFound || r.status == Ok
    ensures r.status == Ok ==> r.data.Some? && r.data.value in db && r.data.value.id == id
    ensures r.status == NotFound ==> r.data.None?
  {
    var found := FindById(db, id);
    if found.None? then Reply(NotFound, None) else Reply(Ok, found)
  }

  /** No two stored records share an identifier. */
  predicate UniqueIds(db: seq<Item>)
  {
    forall i, j :: 0 <= i < j < |db| ==> db[i].id != db[j].id
  }

  /** Every stored record passed the model's validation. */
  predicate AllStored(db: seq<Item>)
  {
    forall i :: 0 <= i < |db| ==> Stored(db[i])
  }

  /** The date parser only yields calendar dates. */
  ghost predicate ParserValid(parse: DateParser)
  {
    forall text :: parse(text).Some? ==> ValidDateTime(parse(text).value)
  }

  /** The record `save` stores for a document that passed validation. */
  function Persist(n: NewItem, parse: DateParser, newId: string): (it: Item)
    requires DocErrors(NewDoc(n, parse)) == {}
    ensures ItemDoc(it) == NewDoc(n, parse) && it.id == newId
  {
    Validated(NewDoc(n, parse));
    Item(newId, Trim(n.producto), Trim(n.description), n.valor, n.estado, n.relevancia, parse(n.fecha).value)
  }

  /** Text made only of white space, which the `trim` setter empties. */
  predicate Blank(s: string)
  {
    Trim(s) == []
  }

  /** A record saved from a document that passed validation is a stored record. */
  lemma PersistStored(n: NewItem, parse: DateParser, newId: string)
    requires DocErrors(NewDoc(n, parse)) == {} && ParserValid(parse)
    ensures Stored(Persist(n, parse, newId))
  {
    Validated(NewDoc(n, parse));
    TrimmedSpec(n.producto);
    TrimmedSpec(n.description);
  }

  /**
   * `createInventario`: 400 when the item schema rejects the body; 500 when
   * the schema accepted it but the trimmed `producto` or `description` is
   * empty; otherwise 201 with the new record appended under the identifier
   * the database assigned (`newId`). Only 201 changes the database.
   */
  function CreateInventario(db: seq<Item>, body: Body, parse: DateParser, newId: string): (o: Outcome)
    ensures o.reply.status == BadRequest <==> ItemErrors(body, parse) != {}
    ensures o.reply.status == ServerError <==>
              && ParseItem(body, parse).Success?
              && (Blank(ParseItem(body, parse).value.producto) || Blank(ParseItem(body, parse).value.description))
    ensures o.reply.status in {BadRequest, ServerError, Created}
    ensures o.reply.status != Created ==> o.db == db && o.reply.data.None?
    ensures o.reply.status == Created ==>
              && o.reply.data.Some?
              && o.db == db + [o.reply.data.value]
              && o.reply.data.value.id == newId
              && ItemDoc(o.reply.data.value) == NewDoc(ParseItem(body, parse).value, parse)
  {
    var parsed := ParseItem(body, parse);
    if parsed.Failure? then Outcome(Reply(BadRequest, None), db)
    else
      var n := parsed.value;
      SchemaThenModel(n, parse);
      if DocErrors(NewDoc(n, parse)) != {} then Outcome(Reply(ServerError, None), db)
      else
        var it := Persist(n, parse, newId);
        Outcome(Reply(Created, Some(it)), db + [it])
  }

  /**
   * Creating keeps every stored record valid and the identifiers unique,
   * given a fresh identifier and a parser that yields calendar dates.
   */
  lemma CreateKeepsStore(db: seq<Item>, body: Body, parse: DateParser, newId: string)
    requires AllStored(db) && UniqueIds(db) && ParserValid(parse)
    requires forall i :: 0 <= i < |db| ==> db[i].id != newId
    ensures var o := CreateInventario(db, body, parse, newId);
            AllStored(o.db) && UniqueIds(o.db)
  {
    var o := CreateInventario(db, body, parse, newId);
    if o.reply.status == Created {
      var n := ParseItem(body, parse).value;
      var it := Persist(n, parse, newId);
      PersistStored(n, parse, newId);
      assert o.db == db + [it];
      AppendKeepsStore(db, it);
    }
  }

  /**
   * A 201 stores what the body gives: trimmed text, the body's `valor`,
   * the members its names denote and the date its `fecha` text denotes,
   * under the identifier the database assigned.
   */
  lemma CreateWritesBody(db: seq<Item>, body: Body, parse: DateParser, newId: string)
    ensures var o := CreateInventario(db, body, parse, newId);
            o.reply.status == Created ==>
              var it := o.reply.data.value;
              && it.id == newId
              && "producto" in body && body["producto"].JString? && it.producto == Trim(body["producto"].s)
              && "description" in body && body["description"].JString? && it.description == Trim(body["description"].s)
              && "valor" in body && body["valor"] == JNumber(it.valor)
              && "estado" in body && body["estado"] == JString(EstadoName(it.estado))
              && "relevancia" in body && body["relevancia"] == JString(RelevanciaName(it.relevancia))
              && "fecha" in body && body["fecha"].JString? && parse(body["fecha"].s) == Some(it.fecha)
  {
    var o := CreateInventario(db, body, parse, newId);
    if o.reply.status == Created {
      var n := ParseItem(body, parse).value;
      var it := o.reply.data.value;
      ItemBodyCarries(body, n);
      assert ItemDoc(it) == NewDoc(n, parse);
      EnumNamesInjective(it.estado, n.estado, it.relevancia, n.relevancia);
    }
  }

  /** The fields of a body are read off the accepted item that carries it. */
  lemma ItemBodyCarries(body: Body, n: NewItem)
    requires ItemBody(n) == body - {"createdAt", "updatedAt"} - (body.Keys - ItemKeys)
    ensures "producto" in body && body["producto"] == JString(n.producto)
    ensures "description" in body && body["description"] == JString(n.description)
    ensures "valor" in body && body["valor"] == JNumber(n.valor)
    ensures "estado" in body && body["estado"] == JString(EstadoName(n.estado))
    ensures "relevancia" in body && body["relevancia"] == JString(RelevanciaName(n.relevancia))
    ensures "fecha" in body && body["fecha"] == JString(n.fecha)
  {
    var b := body - {"createdAt", "updatedAt"} - (body.Keys - ItemKeys);
    assert "producto" in ItemBody(n) && "description" in ItemBody(n) && "valor" in ItemBody(n);
    assert "estado" in ItemBody(n) && "relevancia" in ItemBody(n) && "fecha" in ItemBody(n);
  }

  /** Appending a stored record with a fresh identifier keeps the store valid. */
  lemma AppendKeepsStore(db: seq<Item>, it: Item)
    requires AllStored(db) && UniqueIds(db) && Stored(it)
    requires forall i :: 0 <= i < |db| ==> db[i].id != it.id
    ensures AllStored(db + [it]) && UniqueIds(db + [it])
  {
  }

  /** `{ id, ...req.body }`: an `id` in the body overrides the route parameter. */
  function UpdateBody(routeId: string, body: Body): (b: Body)
    ensures b.Keys == body.Keys + {"id"}
    ensures b["id"] == if "id" in body then body["id"] else JString(routeId)
    ensures forall k :: k in body && k != "id" ==> b[k] == body[k]
  {
    if "id" in body then body else body["id" := JString(routeId)]
  }

  /** The values an update sets, after casting and setters; None for a path it leaves alone. */
  function PatchDoc(p: ItemPatch, parse: DateParser): Doc
  {
    Doc(if p.producto.Some? then Some(Trim(p.producto.value)) else None,
        if p.description.Some? then Some(Trim(p.description.value)) else None,
        p.valor,
        if p.estado.Some? then Some(EstadoName(p.estado.value)) else None,
        if p.relevancia.Some? then Some(RelevanciaName(p.relevancia.value)) else None,
        if p.fecha.Some? then parse(p.fecha.value) else None)
  }

  /** The update sets path `k`. */
  predicate Sets(p: ItemPatch, k: string)
  {
    if k == "producto" then p.producto.Some?
    else if k == "description" then p.description.Some?
    else if k == "valor" then p.valor.Some?
    else if k == "estado" then p.estado.Some?
    else if k == "relevancia" then p.relevancia.Some?
    else k == "fecha" && p.fecha.Some?
  }

  /** `runValidators: true`: the validators of the paths the update sets, and only those. */
  function UpdateErrors(p: ItemPatch, parse: DateParser): (r: set<string>)
    ensures r <= DocKeys
    ensures forall k :: k in r ==> Sets(p, k)
  {
    set k | k in DocKeys && Sets(p, k) && !DocFieldOk(k, PatchDoc(p, parse))
  }

  /**
   * Data the update schema accepted fails the update validators only on a
   * given `producto` or `description` made of white space alone.
   */
  lemma UpdateOnlyBlankFails(body: Body, parse: DateParser)
    requires ParsePatch(body, parse).Success?
    ensures var p := ParsePatch(body, parse).value;
            UpdateErrors(p, parse)
              == (if p.producto.Some? && Blank(p.producto.value) then {"producto"} else {})
               + (if p.description.Some? && Blank(p.description.value) then {"description"} else {})
  {
    var p := ParsePatch(body, parse).value;
    PatchOnlyBlankFails(p, parse);
  }

  /** The same for any patch with a positive `valor` and a parsable `fecha`, if given. */
  lemma PatchOnlyBlankFails(p: ItemPatch, parse: DateParser)
    requires p.valor.Some? ==> p.valor.value > 0.0
    requires p.fecha.Some? ==> parse(p.fecha.value).Some?
    ensures UpdateErrors(p, parse)
              == (if p.producto.Some? && Blank(p.producto.value) then {"producto"} else {})
               + (if p.description.Some? && Blank(p.description.value) then {"description"} else {})
  {
    var blank := (if p.producto.Some? && Blank(p.producto.value) then {"producto"} else {})
               + (if p.description.Some? && Blank(p.description.value) then {"description"} else {});
    forall k ensures k in UpdateErrors(p, parse) <==> k in blank {
      PatchErrorPath(p, parse, k);
    }
  }

  /** One path of `PatchOnlyBlankFails`. */
  lemma PatchErrorPath(p: ItemPatch, parse: DateParser, k: string)
    requires p.valor.Some? ==> p.valor.value > 0.0
    requires p.fecha.Some? ==> parse(p.fecha.value).Some?
    ensures k in UpdateErrors(p, parse)
        <==> (k == "producto" && p.producto.Some? && Blank(p.producto.value))
             || (k == "description" && p.description.Some? && Blank(p.description.value))
  {
    var d := PatchDoc(p, parse);
    assert k in UpdateErrors(p, parse) <==> k in DocKeys && Sets(p, k) && !DocFieldOk(k, d);
    if k == "producto" || k == "description" {
      PatchFieldChecks(p, parse);
    } else if k in DocKeys && Sets(p, k) {
      OtherPathsPass(p, parse, k);
    }
  }

  /** On such a patch every path but the two texts passes its validator. */
  lemma OtherPathsPass(p: ItemPatch, parse: DateParser, k: string)
    requires p.valor.Some? ==> p.valor.value > 0.0
    requires p.fecha.Some? ==> parse(p.fecha.value).Some?
    requires k in DocKeys && k != "producto" && k != "description" && Sets(p, k)
    ensures DocFieldOk(k, PatchDoc(p, parse))
  {
    PatchFieldChecks(p, parse);
    assert k == "valor" || k == "estado" || k == "relevancia" || k == "fecha";
  }

  /** Which validator passes on each path of such a patch. */
  lemma PatchFieldChecks(p: ItemPatch, parse: DateParser)
    requires p.valor.Some? ==> p.valor.value > 0.0
    requires p.fecha.Some? ==> parse(p.fecha.value).Some?
    ensures var d := PatchDoc(p, parse);
            && (Sets(p, "valor") ==> DocFieldOk("valor", d))
            && (Sets(p, "estado") ==> DocFieldOk("estado", d))
            && (Sets(p, "relevancia") ==> DocFieldOk("relevancia", d))
            && (Sets(p, "fecha") ==> DocFieldOk("fecha", d))
            && (Sets(p, "producto") && !DocFieldOk("producto", d) <==> p.producto.Some? && Blank(p.producto.value))
            && (Sets(p, "description") && !DocFieldOk("description", d)
                <==> p.description.Some? && Blank(p.description.value))
  {
    if p.estado.Some? {
      EnumNamesRoundTrip(p.estado.value, Hogar);
    }
    if p.relevancia.Some? {
      EnumNamesRoundTrip(Importante, p.relevancia.value);
    }
  }

  /** The record after `$set`: given fields replaced, the others kept. */
  function ApplyPatch(it: Item, p: ItemPatch, parse: DateParser): (r: Item)
    requires p.fecha.Some? ==> parse(p.fecha.value).Some?
    ensures r.id == it.id
    ensures p.producto.None? ==> r.producto == it.producto
    ensures p.producto.Some? ==> r.producto == Trim(p.producto.value) && Trimmed(r.producto)
    ensures p.description.None? ==> r.description == it.description
    ensures p.description.Some? ==> r.description == Trim(p.description.value) && Trimmed(r.description)
    ensures p.valor.None? ==> r.valor == it.valor
    ensures p.valor.Some? ==> r.valor == p.valor.value
    ensures p.estado.None? ==> r.estado == it.estado
    ensures p.estado.Some? ==> r.estado == p.estado.value
    ensures p.relevancia.None? ==> r.relevancia == it.relevancia
    ensures p.relevancia.Some? ==> r.relevancia == p.relevancia.value
    ensures p.fecha.None? ==> r.fecha == it.fecha
    ensures p.fecha.Some? ==> parse(p.fecha.value) == Some(r.fecha)
  {
    Item(it.id,
         if p.producto.Some? then Trim(p.producto.value) else it.producto,
         if p.description.Some? then Trim(p.description.value) else it.description,
         if p.valor.Some? then p.valor.value else it.valor,
         if p.estado.Some? then p.estado.value else it.estado,
         if p.relevancia.Some? then p.relevancia.value else it.relevancia,
         if p.fecha.Some? then parse(p.fecha.value).value else it.fecha)
  }

  /**
   * `updateInventario`: 400 when the update schema rejects `{ id, ...body }`,
   * 500 when an update validator fails, 404 when no record has the route
   * identifier, otherwise 200 with that record patched in place. The
   * validators run before the lookup, and the record is located by the route
   * identifier whatever `id` the body carried.
   */
  function UpdateInventario(db: seq<Item>, routeId: string, body: Body, parse: DateParser): (o: Outcome)
    ensures var parsed := ParsePatch(UpdateBody(routeId, body), parse);
            && (o.reply.status == BadRequest <==> parsed.Failure?)
            && (o.reply.status == ServerError <==> parsed.Success? && UpdateErrors(parsed.value, parse) != {})
            && (o.reply.status == NotFound <==>
                  parsed.Success? && UpdateErrors(parsed.value, parse) == {} && FindById(db, routeId).None?)
            && (o.reply.status == Ok ==>
                  var i := FindIndex(db, routeId).value;
                  && o.reply.data == Some(ApplyPatch(db[i], parsed.value, parse))
                  && o.db == db[i := o.reply.data.value])
    ensures o.reply.status in {BadRequest, ServerError, NotFound, Ok}
    ensures o.reply.status != Ok ==> o.db == db && o.reply.data.None?
  {
    var parsed := ParsePatch(UpdateBody(routeId, body), parse);
    if parsed.Failure? then Outcome(Reply(BadRequest, None), db)
    else if UpdateErrors(parsed.value, parse) != {} then Outcome(Reply(ServerError, None), db)
    else
      var i := FindIndex(db, routeId);
      if i.None? then Outcome(Reply(NotFound, None), db)
      else
        var it := ApplyPatch(db[i.value], parsed.value, parse);
        Outcome(Reply(Ok, Some(it)), db[i.value := it])
  }

  /**
   * A successful update writes what the body gives: each field the body
   * carries is set to that value (text trimmed, names read as enumeration
   * members, `fecha` cast by the date parser), each field it leaves out is
   * kept, and the record keeps the route identifier.
   */
  lemma UpdateWritesBody(db: seq<Item>, routeId: string, body: Body, parse: DateParser)
    ensures var o := UpdateInventario(db, routeId, body, parse);
            o.reply.status == Ok ==>
              var before := db[FindIndex(db, routeId).value];
              var it := o.reply.data.value;
              && it.id == before.id == routeId
              && ("producto" in body ==> body["producto"].JString? && it.producto == Trim(body["producto"].s))
              && ("producto" !in body ==> it.producto == before.producto)
              && ("description" in body ==> body["description"].JString? && it.description == Trim(body["description"].s))
              && ("description" !in body ==> it.description == before.description)
              && ("valor" in body ==> body["valor"] == JNumber(it.valor))
              && ("valor" !in body ==> it.valor == before.valor)
              && ("estado" in body ==> body["estado"] == JString(EstadoName(it.estado)))
              && ("estado" !in body ==> it.estado == before.estado)
              && ("relevancia" in body ==> body["relevancia"] == JString(RelevanciaName(it.relevancia)))
              && ("relevancia" !in body ==> it.relevancia == before.relevancia)
              && ("fecha" in body ==> body["fecha"].JString? && parse(body["fecha"].s) == Some(it.fecha))
              && ("fecha" !in body ==> it.fecha == before.fecha)
  {
    var o := UpdateInventario(db, routeId, body, parse);
    if o.reply.status == Ok {
      var merged := UpdateBody(routeId, body);
      var p := ParsePatch(merged, parse).value;
      PatchCarriesBody(body, merged, p);
    }
  }

  /** The fields of a body, other than `id`, are read off the accepted data that carries it. */
  lemma PatchCarriesBody(body: Body, merged: Body, p: ItemPatch)
    requires forall k :: k in body && k != "id" ==> k in merged && merged[k] == body[k]
    requires forall k :: k in merged && k != "id" ==> k in body
    requires forall k :: k in ItemKeys ==> Lookup(merged, k) == PatchValue(p, k)
    ensures "producto" in body <==> p.producto.Some?
    ensures "producto" in body ==> body["producto"] == JString(p.producto.value)
    ensures "description" in body <==> p.description.Some?
    ensures "description" in body ==> body["description"] == JString(p.description.value)
    ensures "valor" in body <==> p.valor.Some?
    ensures "valor" in body ==> body["valor"] == JNumber(p.valor.value)
    ensures "estado" in body <==> p.estado.Some?
    ensures "estado" in body ==> body["estado"] == JString(EstadoName(p.estado.value))
    ensures "relevancia" in body <==> p.relevancia.Some?
    ensures "relevancia" in body ==> body["relevancia"] == JString(RelevanciaName(p.relevancia.value))
    ensures "fecha" in body <==> p.fecha.Some?
    ensures "fecha" in body ==> body["fecha"] == JString(p.fecha.value)
  {
    assert Lookup(merged, "producto") == PatchValue(p, "producto");
    assert Lookup(merged, "description") == PatchValue(p, "description");
    assert Lookup(merged, "valor") == PatchValue(p, "valor");
    assert Lookup(merged, "estado") == PatchValue(p, "estado");
    assert Lookup(merged, "relevancia") == PatchValue(p, "relevancia");
    assert Lookup(merged, "fecha") == PatchValue(p, "fecha");
  }

  /** A patch the schema and the update validators accepted turns a stored record into a stored record. */
  lemma PatchKeepsStored(it: Item, p: ItemPatch, parse: DateParser)
    requires Stored(it) && ParserValid(parse)
    requires p.fecha.Some? ==> parse(p.fecha.value).Some?
    requires UpdateErrors(p, parse) == {}
    ensures Stored(ApplyPatch(it, p, parse))
  {
    var d := PatchDoc(p, parse);
    assert p.producto.Some? ==> DocFieldOk("producto", d) by {
      assert "producto" !in UpdateErrors(p, parse);
    }
    assert p.description.Some? ==> DocFieldOk("description", d) by {
      assert "description" !in UpdateErrors(p, parse);
    }
    assert p.valor.Some? ==> DocFieldOk("valor", d) by {
      assert "valor" !in UpdateErrors(p, parse);
    }
    if p.producto.Some? {
      TrimmedSpec(p.producto.value);
    }
    if p.description.Some? {
      TrimmedSpec(p.description.value);
    }
  }

  /** Replacing a record by a stored record with the same identifier keeps the store valid. */
  lemma ReplaceKeepsStore(db: seq<Item>, i: nat, it: Item)
    requires i < |db| && AllStored(db) && UniqueIds(db) && Stored(it) && it.id == db[i].id
    ensures AllStored(db[i := it]) && UniqueIds(db[i := it])
    ensures forall j :: 0 <= j < |db| ==> db[i := it][j].id == db[j].id
  {
  }

  /**
   * Updating keeps every stored record valid and every identifier where it
   * was, and changes no record but the one with the route identifier.
   */
  lemma UpdateKeepsStore(db: seq<Item>, routeId: string, body: Body, parse: DateParser)
    requires AllStored(db) && UniqueIds(db) && ParserValid(parse)
    ensures var o := UpdateInventario(db, routeId, body, parse);
            && AllStored(o.db) && UniqueIds(o.db) && |o.db| == |db|
            && (forall i :: 0 <= i < |db| ==> o.db[i].id == db[i].id)
            && (forall i :: 0 <= i < |db| && db[i].id != routeId ==> o.db[i] == db[i])
  {
    var o := UpdateInventario(db, routeId, body, parse);
    if o.reply.status == Ok {
      var merged := UpdateBody(routeId, body);
      var i := FindIndex(db, routeId).value;
      var it := ApplyPatch(db[i], ParsePatch(merged, parse).value, parse);
      assert o.db == db[i := it];
      PatchKeepsStored(db[i], ParsePatch(merged, parse).value, parse);
      ReplaceKeepsStore(db, i, it);
    }
  }

  /**
   * An update body without `id` is rejected whenever the route identifier
   * is not a UUID; a MongoDB ObjectId (24 hexadecimal digits) never is.
   */
  lemma UpdateNeedsUuid(db: seq<Item>, routeId: string, body: Body, parse: DateParser)
    requires "id" !in body && |routeId| == 24
    ensures UpdateInventario(db, routeId, body, parse).reply.status == BadRequest
    ensures UpdateInventario(db, routeId, body, parse).db == db
  {
    assert "id" in PatchErrors(UpdateBody(routeId, body), parse);
  }

  /**
   * `deleteInventario`: 404 when no record has the identifier, otherwise 200
   * with the first such record removed.
   */
  function DeleteInventario(db: seq<Item>, id: string): (o: Outcome)
    ensures o.reply.status == NotFound <==> forall i :: 0 <= i < |db| ==> db[i].id != id
    ensures o.reply.status in {NotFound, Ok} && o.reply.data.None?
    ensures o.reply.status == NotFound ==> o.db == db
    ensures o.reply.status == Ok ==>
              var i := FindIndex(db, id).value;
              o.db == db[..i] + db[i + 1..]
  {
    var i := FindIndex(db, id);
    if i.None? then Outcome(Reply(NotFound, None), db)
    else Outcome(Reply(Ok, None), db[..i.value] + db[i.value + 1..])
  }

  /** Removing position `i`: what is left, and where each remaining element came from. */
  lemma RemovedAt<T>(s: seq<T>, i: nat, r: seq<T>)
    requires i < |s| && r == s[..i] + s[i + 1..]
    ensures multiset(s) == multiset(r) + multiset{s[i]}
    ensures forall j :: 0 <= j < i ==> r[j] == s[j]
    ensures forall j :: i <= j < |r| ==> r[j] == s[j + 1]
  {
    assert s == s[..i] + [s[i]] + s[i + 1..];
  }

  /** Removing one position keeps the identifiers unique and drops the removed one. */
  lemma RemoveKeepsIds(db: seq<Item>, i: nat)
    requires i < |db| && UniqueIds(db)
    ensures var r := db[..i] + db[i + 1..];
            UniqueIds(r) && forall j :: 0 <= j < |r| ==> r[j].id != db[i].id
  {
    RemovedAt(db, i, db[..i] + db[i + 1..]);
  }

  /** Removing one position keeps every remaining record stored. */
  lemma RemoveKeepsStored(db: seq<Item>, i: nat)
    requires i < |db| && AllStored(db)
    ensures AllStored(db[..i] + db[i + 1..])
  {
    var r := db[..i] + db[i + 1..];
    RemovedAt(db, i, r);
    forall j | 0 <= j < |r| ensures Stored(r[j]) {
      assert r[j] == db[if j < i then j else j + 1];
    }
  }

  /**
   * With unique identifiers, deleting removes exactly the record with that
   * identifier, keeps every other record once, and keeps the store valid.
   */
  lemma DeleteKeepsStore(db: seq<Item>, id: string, x: Item)
    requires AllStored(db) && UniqueIds(db)
    ensures var o := DeleteInventario(db, id);
            && AllStored(o.db) && UniqueIds(o.db)
            && multiset(o.db)[x] == if x.id == id then 0 else multiset(db)[x]
  {
    var o := DeleteInventario(db, id);
    if o.reply.status == Ok {
      var i := FindIndex(db, id).value;
      var r := db[..i] + db[i + 1..];
      assert o.db == r;
      RemoveKeepsIds(db, i);
      RemoveKeepsStored(db, i);
      RemovedAt(db, i, r);
      if x.id == id {
        assert x !in r;
      } else {
        assert x != db[i];
        assert multiset(db)[x] == multiset(r)[x] + multiset{db[i]}[x];
      }
    }
  }

  /** The statistics `getStats` answers with. */
  datatype Stats = Stats(
    totalRegistros: nat, porEstado: seq<(Estado, nat)>, porRelevancia: seq<(Relevancia, nat)>,
    sumTotal: real, promedioValor: real)

  function EstadoOf(it: Item): Estado
  {
    it.estado
  }

  function RelevanciaOf(it: Item): Relevancia
  {
    it.relevancia
  }

  /**
   * `cs` holds one row per key present in `s`, each key once, with the
   * number of elements carrying it, and the counts add up to `|s|`.
   */
  predicate CountsOf<K(==)>(cs: seq<(K, nat)>, s: seq<Item>, key: Item -> K)
  {
    && Total(cs) == |s|
    && (forall i :: 0 <= i < |cs| ==> 0 < cs[i].1 == |Group(s, key, cs[i].0)|)
    && (forall i, j :: 0 <= i < j < |cs| ==> cs[i].0 != cs[j].0)
  }

  lemma CountsSpec<K>(s: seq<Item>, key: Item -> K)
    ensures CountsOf(Counts(s, key), s, key)
  {
    KeysSpec(s, key);
    CountsTotal(s, key);
    var ks, cs := Keys(s, key), Counts(s, key);
    forall i | 0 <= i < |cs| ensures 0 < cs[i].1 == |Group(s, key, cs[i].0)| {
      assert cs[i] == (ks[i], |Group(s, key, ks[i])|);
      assert ks[i] in ks;
      assert Group(s, key, ks[i]) != [];
    }
  }

  lemma AverageTimesCount(sum: real, n: real)
    ensures n != 0.0 ==> (sum / n) * n == sum
  {
  }

  /** The sum of `valor` over the records. */
  function SumValor(db: seq<Item>): real
  {
    if db == [] then 0.0 else SumValor(db[..|db| - 1]) + db[|db| - 1].valor
  }

  /** `$group` with `_id: null` and `$sum`: one row, or none on an empty collection. */
  function SumRows(db: seq<Item>): (r: seq<real>)
    ensures |r| <= 1 && (r == [] <==> db == [])
  {
    if db == [] then [] else [SumValor(db)]
  }

  /** `$group` with `_id: null` and `$avg`: one row, or none on an empty collection. */
  function AvgRows(db: seq<Item>): (r: seq<real>)
    ensures |r| <= 1 && (r == [] <==> db == [])
  {
    if db == [] then [] else [SumValor(db) / (|db| as real)]
  }

  /**
   * `getStats`: the record count, one count per `estado` and per
   * `relevancia` present, the sum of `valor` and its average, with 0 for
   * both when there are no records.
   */
  function GetStats(db: seq<Item>): (st: Stats)
    ensures st.totalRegistros == |db|
    ensures Total(st.porEstado) == |db| && Total(st.porRelevancia) == |db|
    ensures CountsOf(st.porEstado, db, EstadoOf) && CountsOf(st.porRelevancia, db, RelevanciaOf)
    ensures st.sumTotal == SumValor(db)
    ensures db == [] ==> st.sumTotal == 0.0 && st.promedioValor == 0.0
    ensures db != [] ==> st.promedioValor == st.sumTotal / (|db| as real)
  {
    CountsSpec(db, EstadoOf);
    CountsSpec(db, RelevanciaOf);
    var sumRows := SumRows(db);
    var avgRows := AvgRows(db);
    Stats(|db|, Counts(db, EstadoOf), Counts(db, RelevanciaOf),
          if |sumRows| > 0 then sumRows[0] else 0.0,
          if |avgRows| > 0 then avgRows[0] else 0.0)
  }

  /** Stored values are never negative, so neither are their sum and average. */
  lemma {:induction false} SumValorNonNegative(db: seq<Item>)
    requires AllStored(db)
    ensures SumValor(db) >= 0.0
  {
    if db != [] {
      SumValorNonNegative(db[..|db| - 1]);
    }
  }

  /** The average times the record count gives back the sum. */
  lemma StatsAverage(db: seq<Item>)
    requires db != []
    ensures GetStats(db).promedioValor * (|db| as real) == GetStats(db).sumTotal
  {
    var st := GetStats(db);
    AverageTimesCount(st.sumTotal, |db| as real);
  }

  lemma StatsNonNegative(db: seq<Item>)
    requires AllStored(db)
    ensures GetStats(db).sumTotal >= 0.0 && GetStats(db).promedioValor >= 0.0
  {
    SumValorNonNegative(db);
  }
}
