/**
  The `Empresa` table row and its serialiser `as_dict`.
 */
module Models {

  import opened Wrappers
  import opened Json

  /** Column default of `estado`, applied when a row is inserted without one. */
  const DEFAULT_ESTADO: string := "PENDIENTE"

  /**
    One row: `id` is the primary key the store assigns, `nit` the unique
    non-null tax id, `nombre` the non-null name, `estado` the status and
    `datos` the JSON column, JNull standing for SQL NULL.
   */
  datatype Empresa = Empresa(id: int, nit: string, nombre: string, estado: string, datos: Json)

  /**
    `Empresa(nit=..., nombre=..., datos=...)` once inserted: the caller gives
    neither `id` nor `estado`; the store supplies the id and the column
    default the status.
   */
  function NewEmpresa(id: int, nit: string, nombre: string, datos: Json): Empresa {
    Empresa(id, nit, nombre, DEFAULT_ESTADO, datos)
  }

  /** What `as_dict` returns, as it reaches `jsonify`. */
  type Dict = map<string, Json>

  const FIELDS: set<string> := {"id", "nit", "nombre", "estado", "datos"}

  /**
    `as_dict`: exactly the five keys, each bound to its column; `datos` is
    present even when the row holds no data, and then it is null.  The
    serialised form loses nothing: FromDict reads the same row back.
   */
  function AsDict(e: Empresa): (d: Dict)
    ensures d.Keys == FIELDS
    ensures d["datos"] == e.datos
    ensures FromDict(d) == Some(e)
  {
    map["id" := JInt(e.id), "nit" := JStr(e.nit), "nombre" := JStr(e.nombre),
        "estado" := JStr(e.estado), "datos" := e.datos]
  }

  /** Reads a row back from a five-key mapping whose scalar fields have the column types. */
  function FromDict(d: Dict): Option<Empresa> {
    if && d.Keys == FIELDS
       && d["id"].JInt? && d["nit"].JStr? && d["nombre"].JStr? && d["estado"].JStr?
    then Some(Empresa(d["id"].i, d["nit"].s, d["nombre"].s, d["estado"].s, d["datos"]))
    else None
  }

  /** Two rows serialise alike only if they are the same row. */
  lemma AsDictInjective(e1: Empresa, e2: Empresa)
    ensures AsDict(e1) == AsDict(e2) ==> e1 == e2
  {
  }

}
