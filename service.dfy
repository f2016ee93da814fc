/**
  The five request handlers of the route module as functions from the
  current table to the new table and the response.  The table is a map from
  `nit` to row, which stands for the `empresa` table and its unique `nit`
  column, plus the next id the store will hand out.
 */
module Service {

  import opened Wrappers
  import opened Json
  import opened Models
  import opened Validators

  // ----------------------------------------------------------- requests

  /** The JSON body of POST /process-data; None is a missing key or null. */
  datatype CreateRequest = CreateRequest(nit: Option<string>, nombre: Option<string>, datos: Option<Json>)

  /** The JSON body of POST /update-status. */
  datatype UpdateRequest = UpdateRequest(nit: Option<string>, estado: Option<string>)

  /**
    One HTTP request, by the route it would take.  A path segment `<nit>` is
    taken to be any string here; Flask only routes non-empty segments
    without '/'.
   */
  datatype Request =
    | ProcessDataReq(create: CreateRequest)      // POST /process-data
    | UpdateStatusReq(update: UpdateRequest)     // POST /update-status
    | ListReq                                    // GET /empresas
    | GetReq(nit: string)                        // GET /empresa/<nit>
    | DeleteReq(nit: string)                     // DELETE /empresa/<nit>

  // ---------------------------------------------------------- responses

  /** The JSON object handed to `jsonify`. */
  datatype Body =
    | Error(error: string)                       // {"error": ...}
    | Saved(message: string, empresa: Dict)      // {"message": ..., "empresa": ...}
    | Found(empresa: Dict)                       // {"empresa": ...}
    | Listing(empresas: set<Dict>)               // {"empresas": [...]}, in no set order
    | Done(message: string)                      // {"message": ...}

  /**
    A reply with its status code, or the uncaught exception a duplicate `nit`
    raises at commit (Flask turns it into a generic 500).
   */
  datatype Response = Reply(code: int, body: Body) | ServerError

  const MSG_MISSING_FIELDS := "Los campos 'nit' y 'nombre' son obligatorios"
  const MSG_SAVED := "Empresa almacenada correctamente"
  const MSG_INVALID_NIT := "NIT inválido. Debe ser numérico y de 6-15 dígitos."
  const MSG_INVALID_ESTADO := "Estado inválido. Opciones válidas: PENDIENTE, PROCESADO, ERROR."
  const MSG_NOT_FOUND := "Empresa no encontrada"
  const MSG_UPDATED := "Estado actualizado correctamente"
  const MSG_DELETED := "Empresa eliminada correctamente"

  // -------------------------------------------------------------- store

  datatype Store = Store(rows: map<string, Empresa>, nextId: int)

  /** The empty table; SQLite numbers rows from 1. */
  const EMPTY: Store := Store(map[], 1)

  /** The new table and the response of one handler call. */
  datatype Step = Step(store: Store, response: Response)

  /** A row as the handlers leave it under key `k`. */
  ghost predicate StoredRow(k: string, e: Empresa, nextId: int) {
    && e.nit == k && k != ""
    && e.nombre != ""
    && 1 <= e.id < nextId
    && IsValidEstado(Some(e.estado))
    && (e.datos == JNull || Truthy(e.datos))
  }

  /**
    The table invariant: every row sits under its own `nit` (so a `nit`
    occurs at most once), `nit` and `nombre` are non-empty, ids are distinct
    and below the next id, `estado` is one of the three labels, and `datos`
    is null or truthy (never `{}`).
   */
  ghost predicate ValidStore(s: Store) {
    && s.nextId >= 1
    && (forall k | k in s.rows :: StoredRow(k, s.rows[k], s.nextId))
    && (forall k1, k2 | k1 in s.rows && k2 in s.rows && k1 != k2 :: s.rows[k1].id != s.rows[k2].id)
  }

  /** `not field` is false: the field is present, not null and not "". */
  predicate Present(field: Option<string>) {
    field.Some? && field.value != ""
  }

  /**
    The `datos` value `process_data` stores: a falsy `datos` is first popped
    from the request, then what `data.get("datos")` yields is replaced by
    None when falsy.  The result is the given value when that is truthy and
    null otherwise, so `{}` is never stored.
   */
  function StoredDatos(datos: Option<Json>): (r: Json)
    ensures r == JNull || Truthy(r)
    ensures r != JObject(map[])
    ensures datos.Some? && Truthy(datos.value) ==> r == datos.value
    ensures !(datos.Some? && Truthy(datos.value)) ==> r == JNull
  {
    var kept := if datos.Some? && !Truthy(datos.value) then None else datos;
    var otros := if kept.Some? then kept.value else JNull;
    if !Truthy(otros) then JNull else otros
  }

  // ----------------------------------------------------------- handlers

  /**
    `process_data`: 400 when `nit` or `nombre` is falsy (no format check);
    otherwise one insert with the store's next id and the default status,
    which fails at commit when the `nit` is taken.
   */
  function Create(s: Store, req: CreateRequest): Step {
    if !Present(req.nit) || !Present(req.nombre) then
      Step(s, Reply(400, Error(MSG_MISSING_FIELDS)))
    else
      var e := NewEmpresa(s.nextId, req.nit.value, req.nombre.value, StoredDatos(req.datos));
      if e.nit in s.rows then Step(s, ServerError)
      else Step(Store(s.rows[e.nit := e], s.nextId + 1), Reply(201, Saved(MSG_SAVED, AsDict(e))))
  }

  /**
    `update_status`: the nit format is checked first, then the status label,
    then the row's existence; only then is `estado` assigned.
   */
  function Update(s: Store, req: UpdateRequest): Step {
    if !IsValidNit(req.nit) then Step(s, Reply(400, Error(MSG_INVALID_NIT)))
    else if !IsValidEstado(req.estado) then Step(s, Reply(400, Error(MSG_INVALID_ESTADO)))
    else if req.nit.value !in s.rows then Step(s, Reply(404, Error(MSG_NOT_FOUND)))
    else
      var e := s.rows[req.nit.value].(estado := req.estado.value);
      Step(s.(rows := s.rows[req.nit.value := e]), Reply(200, Saved(MSG_UPDATED, AsDict(e))))
  }

  /** The serialised rows of the table, one per row. */
  function SerialisedRows(rows: map<string, Empresa>): set<Dict> {
    set k | k in rows :: AsDict(rows[k])
  }

  /** `listar_empresas`. */
  function List(s: Store): Response {
    Reply(200, Listing(SerialisedRows(s.rows)))
  }

  /** `consultar_empresa`. */
  function Get(s: Store, nit: string): Response {
    if nit !in s.rows then Reply(404, Error(MSG_NOT_FOUND))
    else Reply(200, Found(AsDict(s.rows[nit])))
  }

  /** `eliminar_empresa`: a hard delete of the row with that `nit`. */
  function Delete(s: Store, nit: string): Step {
    if nit !in s.rows then Step(s, Reply(404, Error(MSG_NOT_FOUND)))
    else Step(s.(rows := s.rows - {nit}), Reply(200, Done(MSG_DELETED)))
  }

  /** One request through the route table. */
  function Handle(s: Store, r: Request): Step {
    match r
    case ProcessDataReq(c) => Create(s, c)
    case UpdateStatusReq(u) => Update(s, u)
    case ListReq => Step(s, List(s))
    case GetReq(nit) => Step(s, Get(s, nit))
    case DeleteReq(nit) => Delete(s, nit)
  }

  /** The table after a sequence of requests, handled one after another. */
  function Run(s: Store, rs: seq<Request>): Store
    decreases |rs|
  {
    if rs == [] then s else Run(Handle(s, rs[0]).store, rs[1..])
  }

}
