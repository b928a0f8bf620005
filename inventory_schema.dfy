/**
 * The request schemas of the inventory API: the item schema checked on
 * create, its partial form checked on update, and the filter schema of the
 * listing. Each schema is a function from a request body to either the
 * validated value or the set of paths of the fields that failed, as Zod
 * reports every failing field of an object at once.
 */
module InventorySchema {
  import opened Wrappers
  import opened Calendar

  /** A JSON value of a request body or query, as far as the schemas tell kinds apart. */
  datatype Json = JString(s: string) | JNumber(n: real) | JOther  // JOther: null, booleans, arrays, objects

  type Body = map<string, Json>

  /** `new Date(text)`: the moment a text denotes, or None for an Invalid Date. */
  type DateParser = string -> Option<DateTime>

  datatype Estado = Importante | PocoImportante | NadaImportante
  datatype Relevancia = Hogar | Empresa | Salud | Otros
  datatype ValorOrden = Alto | Bajo

  function EstadoName(e: Estado): string
  {
    match e
    case Importante => "Importante"
    case PocoImportante => "Poco importante"
    case NadaImportante => "Nada importante"
  }

  function ParseEstado(s: string): (r: Option<Estado>)
    ensures r.Some? ==> EstadoName(r.value) == s
  {
    if s == "Importante" then Some(Importante)
    else if s == "Poco importante" then Some(PocoImportante)
    else if s == "Nada importante" then Some(NadaImportante)
    else None
  }

  function RelevanciaName(r: Relevancia): string
  {
    match r
    case Hogar => "Hogar"
    case Empresa => "Empresa"
    case Salud => "Salud"
    case Otros => "Otros"
  }

  function ParseRelevancia(s: string): (r: Option<Relevancia>)
    ensures r.Some? ==> RelevanciaName(r.value) == s
  {
    if s == "Hogar" then Some(Hogar)
    else if s == "Empresa" then Some(Empresa)
    else if s == "Salud" then Some(Salud)
    else if s == "Otros" then Some(Otros)
    else None
  }

  function ParseValorOrden(s: string): (r: Option<ValorOrden>)
    ensures r == Some(Alto) <==> s == "Alto"
    ensures r == Some(Bajo) <==> s == "Bajo"
  {
    if s == "Alto" then Some(Alto) else if s == "Bajo" then Some(Bajo) else None
  }

  /** The enumerations accept exactly the names of their members. */
  lemma EnumNamesRoundTrip(e: Estado, r: Relevancia)
    ensures ParseEstado(EstadoName(e)) == Some(e)
    ensures ParseRelevancia(RelevanciaName(r)) == Some(r)
  {
  }

  /** Distinct members have distinct names. */
  lemma EnumNamesInjective(a: Estado, b: Estado, c: Relevancia, d: Relevancia)
    ensures EstadoName(a) == EstadoName(b) ==> a == b
    ensures RelevanciaName(c) == RelevanciaName(d) ==> c == d
  {
  }

  predicate IsHexDigit(c: char)
  {
    ('0' <= c <= '9') || ('a' <= c <= 'f') || ('A' <= c <= 'F')
  }

  /** Zod's `uuid()`: five groups of 8, 4, 4, 4 and 12 hexadecimal digits joined by hyphens. */
  predicate IsUuid(s: string)
  {
    |s| == 36
    && forall i :: 0 <= i < |s| ==>
         if i == 8 || i == 13 || i == 18 || i == 23 then s[i] == '-' else IsHexDigit(s[i])
  }

  function Lookup(body: Body, k: string): Option<Json>
  {
    if k in body then Some(body[k]) else None
  }

  /** Whether `v` is a present, non-empty JSON string. */
  predicate NonEmptyString(v: Option<Json>)
  {
    v.Some? && v.value.JString? && |v.value.s| >= 1
  }

  const ItemKeys: set<string> :=
    {"id", "producto", "description", "valor", "estado", "relevancia", "fecha", "createdAt", "updatedAt"}

  /** The check that `inventoryItemSchema` applies to the value `v` of field `k` (None: absent). */
  predicate ItemFieldOk(k: string, v: Option<Json>, parse: DateParser)
  {
    if k == "id" then v.None? || (v.value.JString? && IsUuid(v.value.s))
    else if k == "producto" || k == "description" then NonEmptyString(v)
    else if k == "valor" then v.Some? && v.value.JNumber? && v.value.n > 0.0
    else if k == "estado" then v.Some? && v.value.JString? && ParseEstado(v.value.s).Some?
    else if k == "relevancia" then v.Some? && v.value.JString? && ParseRelevancia(v.value.s).Some?
    else if k == "fecha" then v.Some? && v.value.JString? && parse(v.value.s).Some?
    else v.None?  // createdAt, updatedAt: z.date() accepts no JSON value
  }

  /** The paths that `inventoryItemSchema.parse` reports as failing. */
  function ItemErrors(body: Body, parse: DateParser): (r: set<string>)
    ensures r <= ItemKeys
    ensures "createdAt" in body ==> "createdAt" in r
    ensures "updatedAt" in body ==> "updatedAt" in r
  {
    set k | k in ItemKeys && !ItemFieldOk(k, Lookup(body, k), parse)
  }

  /** The data a valid create body carries (unknown keys are stripped). */
  datatype NewItem = NewItem(
    id: Option<string>, producto: string, description: string, valor: real,
    estado: Estado, relevancia: Relevancia, fecha: string)

  /** What the item schema promises of accepted data. */
  predicate ValidNewItem(n: NewItem, parse: DateParser)
  {
    (n.id.Some? ==> IsUuid(n.id.value))
    && |n.producto| >= 1 && |n.description| >= 1
    && n.valor > 0.0
    && parse(n.fecha).Some?
  }

  /** The JSON body that carries `n`. */
  function ItemBody(n: NewItem): Body
  {
    var b := map["producto" := JString(n.producto), "description" := JString(n.description),
                 "valor" := JNumber(n.valor), "estado" := JString(EstadoName(n.estado)),
                 "relevancia" := JString(RelevanciaName(n.relevancia)), "fecha" := JString(n.fecha)];
    if n.id.Some? then b["id" := JString(n.id.value)] else b
  }

  /** Every field of a body the item schema accepted passes its check. */
  lemma AcceptedItemFields(body: Body, parse: DateParser)
    requires ItemErrors(body, parse) == {}
    ensures ItemFieldOk("id", Lookup(body, "id"), parse)
    ensures ItemFieldOk("producto", Lookup(body, "producto"), parse)
    ensures ItemFieldOk("description", Lookup(body, "description"), parse)
    ensures ItemFieldOk("valor", Lookup(body, "valor"), parse)
    ensures ItemFieldOk("estado", Lookup(body, "estado"), parse)
    ensures ItemFieldOk("relevancia", Lookup(body, "relevancia"), parse)
    ensures ItemFieldOk("fecha", Lookup(body, "fecha"), parse)
    ensures "createdAt" !in body && "updatedAt" !in body
  {
    assert "id" !in ItemErrors(body, parse) && "producto" !in ItemErrors(body, parse);
    assert "description" !in ItemErrors(body, parse) && "valor" !in ItemErrors(body, parse);
    assert "estado" !in ItemErrors(body, parse) && "relevancia" !in ItemErrors(body, parse);
    assert "fecha" !in ItemErrors(body, parse);
    assert "createdAt" !in ItemErrors(body, parse) && "updatedAt" !in ItemErrors(body, parse);
  }

  /** The item read from an accepted body carries back exactly the body's known fields. */
  lemma AcceptedItemBody(body: Body, n: NewItem)
    requires "createdAt" !in body && "updatedAt" !in body
    requires "id" in body ==> body["id"].JString? && n.id == Some(body["id"].s)
    requires "id" !in body ==> n.id.None?
    requires Lookup(body, "producto") == Some(JString(n.producto))
    requires Lookup(body, "description") == Some(JString(n.description))
    requires Lookup(body, "valor") == Some(JNumber(n.valor))
    requires Lookup(body, "estado") == Some(JString(EstadoName(n.estado)))
    requires Lookup(body, "relevancia") == Some(JString(RelevanciaName(n.relevancia)))
    requires Lookup(body, "fecha") == Some(JString(n.fecha))
    ensures ItemBody(n) == body - {"createdAt", "updatedAt"} - (body.Keys - ItemKeys)
  {
  }

  /** `inventoryItemSchema.parse(body)`. */
  function ParseItem(body: Body, parse: DateParser): (r: Result<NewItem, set<string>>)
    ensures r.Failure? <==> ItemErrors(body, parse) != {}
    ensures r.Failure? ==> r.error == ItemErrors(body, parse)
    ensures r.Success? ==> ValidNewItem(r.value, parse) && ItemBody(r.value) == body - {"createdAt", "updatedAt"} - (body.Keys - ItemKeys)
  {
    if ItemErrors(body, parse) != {} then Failure(ItemErrors(body, parse))
    else
      AcceptedItemFields(body, parse);
      var n := NewItem(
        if "id" in body then Some(body["id"].s) else None,
        body["producto"].s, body["description"].s, body["valor"].n,
        ParseEstado(body["estado"].s).value, ParseRelevancia(body["relevancia"].s).value,
        body["fecha"].s);
      AcceptedItemBody(body, n);
      Success(n)
  }

  /** Every item the schema promises is accepted, and comes back unchanged. */
  lemma ItemRoundTrip(n: NewItem, parse: DateParser)
    requires ValidNewItem(n, parse)
    ensures ParseItem(ItemBody(n), parse) == Success(n)
  {
    var body := ItemBody(n);
    EnumNamesRoundTrip(n.estado, n.relevancia);
    forall k | k in ItemKeys ensures ItemFieldOk(k, Lookup(body, k), parse) {
    }
    assert ItemErrors(body, parse) == {};
  }

  /** The data of a valid update body: `id` is required, every other field optional. */
  datatype ItemPatch = ItemPatch(
    id: string, producto: Option<string>, description: Option<string>, valor: Option<real>,
    estado: Option<Estado>, relevancia: Option<Relevancia>, fecha: Option<string>)

  /**
   * The check of `inventoryItemSchema.partial().extend({ id: uuid })`: an
   * absent field passes, except `id`, which must be a UUID string.
   */
  predicate PatchFieldOk(k: string, v: Option<Json>, parse: DateParser)
  {
    if k == "id" then v.Some? && v.value.JString? && IsUuid(v.value.s)
    else v.None? || ItemFieldOk(k, v, parse)
  }

  function PatchErrors(body: Body, parse: DateParser): (r: set<string>)
    ensures r <= ItemKeys
    ensures forall k :: k in r && k != "id" ==> k in body
  {
    set k | k in ItemKeys && !PatchFieldOk(k, Lookup(body, k), parse)
  }

  /**
   * A field given in an update body is held to its create-time check, a
   * field left out is never reported, and `id` is reported unless it is a
   * UUID string.
   */
  lemma PatchKeepsItemChecks(body: Body, parse: DateParser, k: string)
    requires k in ItemKeys
    ensures k != "id" && k in body ==> (k in PatchErrors(body, parse) <==> k in ItemErrors(body, parse))
    ensures k != "id" && k !in body ==> k !in PatchErrors(body, parse)
    ensures k == "id" ==> (k in PatchErrors(body, parse) <==> !(k in body && body[k].JString? && IsUuid(body[k].s)))
  {
  }

  function OptString(body: Body, k: string): Option<string>
    requires k in body ==> body[k].JString?
  {
    if k in body then Some(body[k].s) else None
  }

  /** Every field of a body the update schema accepted passes its check. */
  lemma AcceptedPatchFields(body: Body, parse: DateParser)
    requires PatchErrors(body, parse) == {}
    ensures PatchFieldOk("id", Lookup(body, "id"), parse)
    ensures PatchFieldOk("producto", Lookup(body, "producto"), parse)
    ensures PatchFieldOk("description", Lookup(body, "description"), parse)
    ensures PatchFieldOk("valor", Lookup(body, "valor"), parse)
    ensures PatchFieldOk("estado", Lookup(body, "estado"), parse)
    ensures PatchFieldOk("relevancia", Lookup(body, "relevancia"), parse)
    ensures PatchFieldOk("fecha", Lookup(body, "fecha"), parse)
    ensures "createdAt" !in body && "updatedAt" !in body
  {
    assert "id" !in PatchErrors(body, parse) && "producto" !in PatchErrors(body, parse);
    assert "description" !in PatchErrors(body, parse) && "valor" !in PatchErrors(body, parse);
    assert "estado" !in PatchErrors(body, parse) && "relevancia" !in PatchErrors(body, parse);
    assert "fecha" !in PatchErrors(body, parse);
    assert "createdAt" !in PatchErrors(body, parse) && "updatedAt" !in PatchErrors(body, parse);
  }

  /** What the update schema promises of accepted data. */
  predicate ValidPatch(p: ItemPatch, parse: DateParser)
  {
    && IsUuid(p.id)
    && (p.producto.Some? ==> |p.producto.value| >= 1)
    && (p.description.Some? ==> |p.description.value| >= 1)
    && (p.valor.Some? ==> p.valor.value > 0.0)
    && (p.fecha.Some? ==> parse(p.fecha.value).Some?)
  }

  /** The JSON value field `k` of an update body carries for `p`; None when `p` leaves the field out. */
  function PatchValue(p: ItemPatch, k: string): Option<Json>
  {
    if k == "id" then Some(JString(p.id))
    else if k == "producto" then (if p.producto.Some? then Some(JString(p.producto.value)) else None)
    else if k == "description" then (if p.description.Some? then Some(JString(p.description.value)) else None)
    else if k == "valor" then (if p.valor.Some? then Some(JNumber(p.valor.value)) else None)
    else if k == "estado" then (if p.estado.Some? then Some(JString(EstadoName(p.estado.value))) else None)
    else if k == "relevancia" then (if p.relevancia.Some? then Some(JString(RelevanciaName(p.relevancia.value))) else None)
    else if k == "fecha" then (if p.fecha.Some? then Some(JString(p.fecha.value)) else None)
    else None
  }

  /** The update body that carries `p`. */
  function PatchBody(p: ItemPatch): Body
  {
    map k | k in ItemKeys && PatchValue(p, k).Some? :: PatchValue(p, k).value
  }

  /** A body whose known fields are those of `p` is, once unknown keys are stripped, the body of `p`. */
  lemma AcceptedPatchBody(body: Body, p: ItemPatch)
    requires forall k :: k in ItemKeys ==> Lookup(body, k) == PatchValue(p, k)
    ensures PatchBody(p) == body - (body.Keys - ItemKeys)
  {
  }

  /** The data `updateInventorySchema` returns for a body it accepted. */
  function PatchOf(body: Body, parse: DateParser): ItemPatch
    requires PatchErrors(body, parse) == {}
  {
    AcceptedPatchFields(body, parse);
    ItemPatch(
      body["id"].s, OptString(body, "producto"), OptString(body, "description"),
      if "valor" in body then Some(body["valor"].n) else None,
      if "estado" in body then ParseEstado(body["estado"].s) else None,
      if "relevancia" in body then ParseRelevancia(body["relevancia"].s) else None,
      OptString(body, "fecha"))
  }

  /** Each field the update schema accepted is carried, with its value, into the data. */
  lemma PatchOfValues(body: Body, parse: DateParser)
    requires PatchErrors(body, parse) == {}
    ensures forall k :: k in ItemKeys ==> Lookup(body, k) == PatchValue(PatchOf(body, parse), k)
  {
    AcceptedPatchFields(body, parse);
    var p := PatchOf(body, parse);
    forall k | k in ItemKeys ensures Lookup(body, k) == PatchValue(p, k) {
      if k == "estado" && k in body {
        assert EstadoName(p.estado.value) == body[k].s;
      } else if k == "relevancia" && k in body {
        assert RelevanciaName(p.relevancia.value) == body[k].s;
      }
    }
  }

  /** The data of an accepted update body meets what the update schema promises. */
  lemma PatchOfValid(body: Body, parse: DateParser)
    requires PatchErrors(body, parse) == {}
    ensures ValidPatch(PatchOf(body, parse), parse)
  {
    AcceptedPatchFields(body, parse);
  }

  /** `updateInventorySchema.parse(body)`. */
  function ParsePatch(body: Body, parse: DateParser): (r: Result<ItemPatch, set<string>>)
    ensures r.Failure? <==> PatchErrors(body, parse) != {}
    ensures r.Failure? ==> r.error == PatchErrors(body, parse)
    ensures r.Success? ==>
              && ValidPatch(r.value, parse)
              && PatchBody(r.value) == body - (body.Keys - ItemKeys)
              && (forall k :: k in ItemKeys ==> Lookup(body, k) == PatchValue(r.value, k))
  {
    if PatchErrors(body, parse) != {} then Failure(PatchErrors(body, parse))
    else
      PatchOfValid(body, parse);
      PatchOfValues(body, parse);
      AcceptedPatchBody(body, PatchOf(body, parse));
      Success(PatchOf(body, parse))
  }

  /** The stored body of a patch carries, under each known key, that key's value. */
  lemma PatchBodyLookup(p: ItemPatch, k: string)
    ensures Lookup(PatchBody(p), k) == if k in ItemKeys then PatchValue(p, k) else None
  {
  }

  /** The value a valid patch gives field `k` passes that field's update check. */
  lemma PatchValueOk(p: ItemPatch, parse: DateParser, k: string)
    requires ValidPatch(p, parse) && k in ItemKeys
    ensures PatchFieldOk(k, PatchValue(p, k), parse)
  {
    if k == "estado" && p.estado.Some? {
      EnumNamesRoundTrip(p.estado.value, Hogar);
    } else if k == "relevancia" && p.relevancia.Some? {
      EnumNamesRoundTrip(Importante, p.relevancia.value);
    }
  }

  /** Every patch the update schema promises is accepted, and comes back unchanged. */
  lemma PatchRoundTrip(p: ItemPatch, parse: DateParser)
    requires ValidPatch(p, parse)
    ensures ParsePatch(PatchBody(p), parse) == Success(p)
  {
    var body := PatchBody(p);
    forall k | k in ItemKeys ensures PatchFieldOk(k, Lookup(body, k), parse) {
      PatchBodyLookup(p, k);
      PatchValueOk(p, parse, k);
    }
    assert PatchErrors(body, parse) == {};
    var q := ParsePatch(body, parse).value;
    forall k | k in ItemKeys ensures PatchValue(q, k) == PatchValue(p, k) {
      PatchBodyLookup(p, k);
    }
    PatchValueInjective(p, q);
  }

  /** A patch is determined by the values it gives the known fields. */
  lemma PatchValueInjective(p: ItemPatch, q: ItemPatch)
    requires forall k :: k in ItemKeys ==> PatchValue(q, k) == PatchValue(p, k)
    ensures q == p
  {
    assert PatchValue(q, "id") == PatchValue(p, "id");
    assert PatchValue(q, "producto") == PatchValue(p, "producto");
    assert PatchValue(q, "description") == PatchValue(p, "description");
    assert PatchValue(q, "valor") == PatchValue(p, "valor");
    assert PatchValue(q, "estado") == PatchValue(p, "estado");
    if q.estado.Some? && p.estado.Some? {
      EnumNamesInjective(q.estado.value, p.estado.value, Hogar, Hogar);
    }
    assert PatchValue(q, "relevancia") == PatchValue(p, "relevancia");
    if q.relevancia.Some? && p.relevancia.Some? {
      EnumNamesInjective(Importante, Importante, q.relevancia.value, p.relevancia.value);
    }
    assert PatchValue(q, "fecha") == PatchValue(p, "fecha");
  }

  /** The listing filter after validation; Zod passes the strings through, `''` included. */
  datatype Filter = Filter(
    estado: Option<string>, relevancia: Option<string>, valorOrden: Option<string>,
    fechaInicio: Option<string>, fechaFin: Option<string>)

  const FilterKeys: set<string> := {"estado", "relevancia", "valorOrden", "fechaInicio", "fechaFin"}

  /** The check of `filterSchema` on field `k`: every field optional, `''` accepted by the enums. */
  predicate FilterFieldOk(k: string, v: Option<Json>)
  {
    v.None? || (v.value.JString? &&
      var s := v.value.s;
      if k == "estado" then s == "" || ParseEstado(s).Some?
      else if k == "relevancia" then s == "" || ParseRelevancia(s).Some?
      else if k == "valorOrden" then s == "" || ParseValorOrden(s).Some?
      else true)  // fechaInicio, fechaFin: any string, even one that is no date
  }

  function FilterErrors(query: Body): (r: set<string>)
    ensures r <= FilterKeys
    ensures forall k :: k in r ==> k in query
  {
    set k | k in FilterKeys && !FilterFieldOk(k, Lookup(query, k))
  }

  /** What a validated filter holds. */
  predicate ValidFilter(f: Filter)
  {
    (f.estado.Some? ==> f.estado.value == "" || ParseEstado(f.estado.value).Some?)
    && (f.relevancia.Some? ==> f.relevancia.value == "" || ParseRelevancia(f.relevancia.value).Some?)
    && (f.valorOrden.Some? ==> f.valorOrden.value == "" || ParseValorOrden(f.valorOrden.value).Some?)
  }

  /** `filterSchema.parse(req.query)`. */
  function ParseFilter(query: Body): (r: Result<Filter, set<string>>)
    ensures r.Failure? <==> FilterErrors(query) != {}
    ensures r.Failure? ==> r.error == FilterErrors(query)
    ensures r.Success? ==> ValidFilter(r.value)
    ensures r.Success? ==>
              && (r.value.estado.Some? <==> "estado" in query)
              && (r.value.estado.Some? ==> query["estado"] == JString(r.value.estado.value))
              && (r.value.relevancia.Some? <==> "relevancia" in query)
              && (r.value.relevancia.Some? ==> query["relevancia"] == JString(r.value.relevancia.value))
              && (r.value.valorOrden.Some? <==> "valorOrden" in query)
              && (r.value.valorOrden.Some? ==> query["valorOrden"] == JString(r.value.valorOrden.value))
              && (r.value.fechaInicio.Some? <==> "fechaInicio" in query)
              && (r.value.fechaInicio.Some? ==> query["fechaInicio"] == JString(r.value.fechaInicio.value))
              && (r.value.fechaFin.Some? <==> "fechaFin" in query)
              && (r.value.fechaFin.Some? ==> query["fechaFin"] == JString(r.value.fechaFin.value))
  {
    if FilterErrors(query) != {} then Failure(FilterErrors(query))
    else
      assert forall k :: k in FilterKeys ==> FilterFieldOk(k, Lookup(query, k)) by {
        forall k | k in FilterKeys ensures FilterFieldOk(k, Lookup(query, k)) {
          assert k !in FilterErrors(query);
        }
      }
      assert FilterFieldOk("estado", Lookup(query, "estado"));
      assert FilterFieldOk("relevancia", Lookup(query, "relevancia"));
      assert FilterFieldOk("valorOrden", Lookup(query, "valorOrden"));
      assert FilterFieldOk("fechaInicio", Lookup(query, "fechaInicio"));
      assert FilterFieldOk("fechaFin", Lookup(query, "fechaFin"));
      Success(Filter(
        OptString(query, "estado"), OptString(query, "relevancia"), OptString(query, "valorOrden"),
        OptString(query, "fechaInicio"), OptString(query, "fechaFin")))
  }

  /** The JSON value field `k` of a query carries for `f`; None when `f` leaves the field out. */
  function FilterValue(f: Filter, k: string): Option<Json>
  {
    var v := if k == "estado" then f.estado
             else if k == "relevancia" then f.relevancia
             else if k == "valorOrden" then f.valorOrden
             else if k == "fechaInicio" then f.fechaInicio
             else if k == "fechaFin" then f.fechaFin
             else None;
    if v.Some? then Some(JString(v.value)) else None
  }

  /** The query string that carries `f`. */
  function FilterBody(f: Filter): Body
  {
    map k | k in FilterKeys && FilterValue(f, k).Some? :: FilterValue(f, k).value
  }

  /** Every filter the schema promises, `''` in any enumeration field included, is accepted and comes back unchanged. */
  lemma FilterRoundTrip(f: Filter)
    requires ValidFilter(f)
    ensures ParseFilter(FilterBody(f)) == Success(f)
  {
    var q := FilterBody(f);
    forall k | k in FilterKeys ensures FilterFieldOk(k, Lookup(q, k)) {
      assert Lookup(q, k) == FilterValue(f, k);
    }
    assert FilterErrors(q) == {};
    assert Lookup(q, "estado") == FilterValue(f, "estado");
    assert Lookup(q, "relevancia") == FilterValue(f, "relevancia");
    assert Lookup(q, "valorOrden") == FilterValue(f, "valorOrden");
    assert Lookup(q, "fechaInicio") == FilterValue(f, "fechaInicio");
    assert Lookup(q, "fechaFin") == FilterValue(f, "fechaFin");
  }

  /** A date bound that is not a date passes validation. */
  lemma FilterAcceptsAnyDateText(a: string, b: string)
    ensures ParseFilter(map["fechaInicio" := JString(a), "fechaFin" := JString(b)]).Success?
  {
    var q := map["fechaInicio" := JString(a), "fechaFin" := JString(b)];
    forall k | k in FilterKeys ensures FilterFieldOk(k, Lookup(q, k)) {
    }
    assert FilterErrors(q) == {};
  }
}
