/**
 * The persisted inventory record and the constraints its Mongoose schema
 * declares: every field required, strings trimmed before they are checked,
 * `valor` at least 0, `estado` and `relevancia` from their closed
 * enumerations. Also the static `getByMonth`, which selects the records of
 * one calendar month.
 */
module InventoryModel {
  import opened Wrappers
  import opened Calendar
  import opened Sorting
  import opened Grouping
  import opened InventorySchema

  /** A stored inventory record; `id` is the identifier the database assigned. */
  datatype Item = Item(
    id: string, producto: string, description: string, valor: real,
    estado: Estado, relevancia: Relevancia, fecha: DateTime)

  /** White space and line terminators as `String.prototype.trim` removes them. */
  predicate IsJsSpace(c: char)
  {
    c == '\t' || c == '\n' || c == '\U{000B}' || c == '\U{000C}' || c == '\r' || c == ' '
    || c == '\U{00A0}' || c == '\U{1680}' || ('\U{2000}' <= c <= '\U{200A}')
    || c == '\U{2028}' || c == '\U{2029}' || c == '\U{202F}' || c == '\U{205F}'
    || c == '\U{3000}' || c == '\U{FEFF}'
  }

  function TrimStart(s: string): (r: string)
    ensures |r| <= |s| && r == s[|s| - |r|..]
    ensures forall i :: 0 <= i < |s| - |r| ==> IsJsSpace(s[i])
    ensures r == [] || !IsJsSpace(r[0])
  {
    if s != [] && IsJsSpace(s[0]) then TrimStart(s[1..]) else s
  }

  function TrimEnd(s: string): (r: string)
    ensures |r| <= |s| && r == s[..|r|]
    ensures forall i :: |r| <= i < |s| ==> IsJsSpace(s[i])
    ensures r == [] || !IsJsSpace(r[|r| - 1])
  {
    if s != [] && IsJsSpace(s[|s| - 1]) then TrimEnd(s[..|s| - 1]) else s
  }

  /** Text with no white space at either end: what the `trim` setter leaves behind. */
  predicate Trimmed(s: string)
  {
    s == [] || (!IsJsSpace(s[0]) && !IsJsSpace(s[|s| - 1]))
  }

  /** The `trim: true` setter: the string without leading and trailing white space. */
  function Trim(s: string): (r: string)
    ensures |r| <= |s| && Trimmed(r)
  {
    var t := TrimStart(s);
    var r := TrimEnd(t);
    assert r != [] ==> r[0] == t[0];
    r
  }

  /** Trimming leaves nothing exactly when the string is all white space. */
  lemma TrimEmpty(s: string)
    ensures Trim(s) == [] <==> forall i :: 0 <= i < |s| ==> IsJsSpace(s[i])
  {
    var t := TrimStart(s);
    if t != [] {
      assert !IsJsSpace(t[0]);
      assert s[|s| - |t|] == t[0];
    }
  }

  /** Trimming yields trimmed text and leaves trimmed text alone, so trimming twice is trimming once. */
  lemma TrimmedSpec(s: string)
    ensures Trimmed(Trim(s))
    ensures Trimmed(s) ==> Trim(s) == s
    ensures Trim(Trim(s)) == Trim(s)
  {
    var t := TrimStart(s);
    var r := TrimEnd(t);
    if r != [] {
      assert r[0] == t[0];
    }
    if Trimmed(s) && s != [] {
      assert TrimStart(s) == s;
    }
    if r != [] {
      assert TrimStart(r) == r;
    }
  }

  /** A document as Mongoose validates it: values after casting and setters, None if missing. */
  datatype Doc = Doc(
    producto: Option<string>, description: Option<string>, valor: Option<real>,
    estado: Option<string>, relevancia: Option<string>, fecha: Option<DateTime>)

  const DocKeys: set<string> := {"producto", "description", "valor", "estado", "relevancia", "fecha"}

  /** The validators of path `k`: `required` (an empty string counts as missing), `min: 0`, `enum`. */
  predicate DocFieldOk(k: string, d: Doc)
  {
    if k == "producto" then d.producto.Some? && d.producto.value != ""
    else if k == "description" then d.description.Some? && d.description.value != ""
    else if k == "valor" then d.valor.Some? && d.valor.value >= 0.0
    else if k == "estado" then d.estado.Some? && ParseEstado(d.estado.value).Some?
    else if k == "relevancia" then d.relevancia.Some? && ParseRelevancia(d.relevancia.value).Some?
    else d.fecha.Some?
  }

  /** The paths of a Mongoose `ValidationError` on saving `d`. */
  function DocErrors(d: Doc): (r: set<string>)
    ensures r <= DocKeys
    ensures d.producto.None? ==> "producto" in r
    ensures d.description.None? ==> "description" in r
    ensures d.valor.None? ==> "valor" in r
    ensures d.estado.None? ==> "estado" in r
    ensures d.relevancia.None? ==> "relevancia" in r
    ensures d.fecha.None? ==> "fecha" in r
  {
    set k | k in DocKeys && !DocFieldOk(k, d)
  }

  /** A document without validation errors has every path set, non-empty text, `valor` at least 0 and known enumeration names. */
  lemma Validated(d: Doc)
    requires DocErrors(d) == {}
    ensures d.producto.Some? && d.producto.value != ""
    ensures d.description.Some? && d.description.value != ""
    ensures d.valor.Some? && d.valor.value >= 0.0
    ensures d.estado.Some? && ParseEstado(d.estado.value).Some?
    ensures d.relevancia.Some? && ParseRelevancia(d.relevancia.value).Some?
    ensures d.fecha.Some?
  {
    assert "producto" !in DocErrors(d) && "description" !in DocErrors(d) && "valor" !in DocErrors(d);
    assert "estado" !in DocErrors(d) && "relevancia" !in DocErrors(d) && "fecha" !in DocErrors(d);
  }

  /** The document `new Inventory(data)` builds from validated create data. */
  function NewDoc(n: NewItem, parse: DateParser): (d: Doc)
    ensures d.producto == Some(Trim(n.producto)) && Trimmed(d.producto.value)
    ensures d.description == Some(Trim(n.description)) && Trimmed(d.description.value)
    ensures d.valor == Some(n.valor)
    ensures d.estado.Some? && ParseEstado(d.estado.value) == Some(n.estado)
    ensures d.relevancia.Some? && ParseRelevancia(d.relevancia.value) == Some(n.relevancia)
    ensures d.fecha == parse(n.fecha)
  {
    EnumNamesRoundTrip(n.estado, n.relevancia);
    Doc(Some(Trim(n.producto)), Some(Trim(n.description)), Some(n.valor),
        Some(EstadoName(n.estado)), Some(RelevanciaName(n.relevancia)), parse(n.fecha))
  }

  /** The document of a stored record. */
  function ItemDoc(it: Item): Doc
  {
    Doc(Some(it.producto), Some(it.description), Some(it.valor),
        Some(EstadoName(it.estado)), Some(RelevanciaName(it.relevancia)), Some(it.fecha))
  }

  /** What every stored record satisfies: non-empty trimmed text, `valor` at least 0, a calendar date. */
  predicate Stored(it: Item)
  {
    && it.producto != "" && it.description != "" && it.valor >= 0.0
    && Trimmed(it.producto) && Trimmed(it.description)
    && ValidDateTime(it.fecha)
  }

  /** A stored record passes the model's validators again, and the `trim` setter changes none of its text. */
  lemma StoredPassesValidation(it: Item)
    requires Stored(it)
    ensures DocErrors(ItemDoc(it)) == {}
    ensures Trim(it.producto) == it.producto && Trim(it.description) == it.description
  {
    TrimmedSpec(it.producto);
    TrimmedSpec(it.description);
    EnumNamesRoundTrip(it.estado, it.relevancia);
    forall k | k in DocKeys ensures DocFieldOk(k, ItemDoc(it)) {
    }
  }

  /**
   * Data the item schema accepted fails the model's validators only on a
   * `producto` or `description` made of white space alone, which `min(1)`
   * lets through and the trimmed `required` rejects.
   */
  lemma SchemaThenModel(n: NewItem, parse: DateParser)
    requires ValidNewItem(n, parse)
    ensures DocErrors(NewDoc(n, parse))
         == (if Trim(n.producto) == [] then {"producto"} else {})
          + (if Trim(n.description) == [] then {"description"} else {})
  {
    var d := NewDoc(n, parse);
    NewDocFields(n, parse);
    var blank := (if Trim(n.producto) == [] then {"producto"} else {})
               + (if Trim(n.description) == [] then {"description"} else {});
    forall k ensures k in DocErrors(d) <==> k in blank {
      if k == "producto" || k == "description" {
        assert k in DocErrors(d) <==> !DocFieldOk(k, d);
      } else {
        assert k !in blank;
        assert k in DocErrors(d) <==> k in DocKeys && !DocFieldOk(k, d);
      }
    }
  }

  /** Which validator each path of the document of schema-accepted data passes. */
  lemma NewDocFields(n: NewItem, parse: DateParser)
    requires ValidNewItem(n, parse)
    ensures DocFieldOk("producto", NewDoc(n, parse)) <==> Trim(n.producto) != []
    ensures DocFieldOk("description", NewDoc(n, parse)) <==> Trim(n.description) != []
    ensures DocFieldOk("valor", NewDoc(n, parse)) && DocFieldOk("estado", NewDoc(n, parse))
    ensures DocFieldOk("relevancia", NewDoc(n, parse)) && DocFieldOk("fecha", NewDoc(n, parse))
  {
  }

  /** `valor` 0 satisfies the model's `min: 0` but not the schema's `positive()`. */
  lemma ZeroValorOnlyModelAccepts(d: Doc, body: Body, parse: DateParser)
    requires d.valor == Some(0.0)
    requires Lookup(body, "valor") == Some(JNumber(0.0))
    ensures "valor" !in DocErrors(d)
    ensures "valor" in ItemErrors(body, parse)
  {
    assert !ItemFieldOk("valor", Lookup(body, "valor"), parse);
  }

  /** A record's place in the driver's `sort({ fecha: ... })`. */
  function FechaRank(it: Item): real
  {
    TimeValue(it.fecha) as real
  }

  /** `new Date(year, month - 1, 1)`: the lower bound of `getByMonth`. */
  function MonthStart(month: int, year: int): int
  {
    LocalDate(year, month - 1, 1)
  }

  /** `new Date(year, month, 0)`: the upper bound, midnight of the month's last day. */
  function MonthEnd(month: int, year: int): int
  {
    LocalDate(year, month, 0)
  }

  predicate InRange(it: Item, lo: int, hi: int)
  {
    lo <= TimeValue(it.fecha) <= hi
  }

  /** `Inventory.getByMonth(month, year)` over the collection `db`. */
  function GetByMonth(db: seq<Item>, month: int, year: int): (r: seq<Item>)
    ensures Sorted(r, FechaRank, true)
    ensures forall it :: multiset(r)[it]
                         == if InRange(it, MonthStart(month, year), MonthEnd(month, year)) then multiset(db)[it] else 0
  {
    var lo, hi := MonthStart(month, year), MonthEnd(month, year);
    SelectCounts(db, it => InRange(it, lo, hi));
    SortBySorted(Select(db, it => InRange(it, lo, hi)), FechaRank, true);
    SortBy(Select(db, it => InRange(it, lo, hi)), FechaRank, true)
  }

  lemma ScaledOrder(a: int, b: int, ms: int)
    requires 0 <= ms < MsPerDay
    ensures a * MsPerDay <= b * MsPerDay + ms <==> a <= b
    ensures b * MsPerDay + ms <= a * MsPerDay <==> b < a || (b == a && ms == 0)
  {
    if a <= b {
      assert a * MsPerDay <= b * MsPerDay;
    } else {
      assert (b + 1) * MsPerDay <= a * MsPerDay;
    }
  }

  /**
   * `getByMonth` keeps a record exactly when its date falls in the
   * requested month (a month number outside 1..12 carried into the year, a
   * year 0..99 read as 19xx), except a record later than midnight on the
   * month's last day, which the upper bound leaves out.
   */
  lemma GetByMonthSelects(month: int, year: int, it: Item)
    requires ValidDateTime(it.fecha)
    ensures var k := NormalMonth(FullYear(year), month - 1);
            InRange(it, MonthStart(month, year), MonthEnd(month, year))
            <==> MonthOf(it.fecha) == k && (it.fecha.day < DaysInMonth(k.year, k.month) || it.fecha.ms == 0)
  {
    var k := NormalMonth(FullYear(year), month - 1);
    var t := it.fecha;
    var n := DayNumber(t.year, t.month, t.day);
    MonthBounds(FullYear(year), month - 1);
    assert month - 1 + 1 == month;
    InMonthDays(t, k);
    var first, last := FirstDay(k), FirstDay(k) + DaysInMonth(k.year, k.month) - 1;
    ScaledOrder(first, n, t.ms);
    ScaledOrder(last, n, t.ms);
    if MonthOf(t) == k {
      assert n == last <==> t.day == DaysInMonth(k.year, k.month);
    }
  }

  /**
   * The result of `getByMonth` holds the selected records of `db`, each as
   * often as in `db`, newest first.
   */
  lemma GetByMonthSpec(db: seq<Item>, month: int, year: int, it: Item)
    requires ValidDateTime(it.fecha)
    ensures var k := NormalMonth(FullYear(year), month - 1);
            multiset(GetByMonth(db, month, year))[it]
            == if MonthOf(it.fecha) == k && (it.fecha.day < DaysInMonth(k.year, k.month) || it.fecha.ms == 0)
               then multiset(db)[it] else 0
    ensures Sorted(GetByMonth(db, month, year), FechaRank, true)
  {
    var lo, hi := MonthStart(month, year), MonthEnd(month, year);
    var sel := Select(db, it => InRange(it, lo, hi));
    SelectSpec(db, it => InRange(it, lo, hi), it);
    SortBySorted(sel, FechaRank, true);
    GetByMonthSelects(month, year, it);
  }
}
