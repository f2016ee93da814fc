/**
  The handlers as they run: each one reads the shared `empresa` table and,
  for create, update and delete, changes it in place and commits.  Every
  method is proved to compute exactly the step its Service function
  describes, and to keep the table invariant.
 */
module Table {

  import opened Wrappers
  import opened Json
  import opened Models
  import opened Validators
  import opened Service
  import ServiceProperties

  class EmpresaTable {

    /** The rows, keyed by their unique `nit`. */
    var rows: map<string, Empresa>
    /** The id the store gives the next inserted row. */
    var nextId: int

    /** The table as a value. */
    function Snapshot(): Store
      reads this
    {
      Store(rows, nextId)
    }

    ghost predicate Valid()
      reads this
    {
      ValidStore(Snapshot())
    }

    /** A fresh, empty table. */
    constructor ()
      ensures Valid() && Snapshot() == EMPTY
    {
      rows := map[];
      nextId := 1;
    }

    /** POST /process-data. */
    method ProcessData(req: CreateRequest) returns (resp: Response)
      requires Valid()
      modifies this
      ensures Valid()
      ensures Step(Snapshot(), resp) == Create(old(Snapshot()), req)
    {
      ServiceProperties.CreatePreservesValid(Snapshot(), req);
      var nit := req.nit;
      var nombre := req.nombre;
      if !Present(nit) || !Present(nombre) {
        return Reply(400, Error(MSG_MISSING_FIELDS));
      }
      // the request dict loses a falsy "datos" before it is read
      var data := req;
      if data.datos.Some? && !Truthy(data.datos.value) {
        data := data.(datos := None);
      }
      var otrosDatos := if data.datos.Some? then data.datos.value else JNull;
      if !Truthy(otrosDatos) {
        otrosDatos := JNull;
      }
      var empresa := NewEmpresa(nextId, nit.value, nombre.value, otrosDatos);
      if empresa.nit in rows {
        // the unique constraint rejects the commit
        return ServerError;
      }
      rows := rows[empresa.nit := empresa];
      nextId := nextId + 1;
      resp := Reply(201, Saved(MSG_SAVED, AsDict(empresa)));
    }

    /** POST /update-status. */
    method UpdateStatus(req: UpdateRequest) returns (resp: Response)
      requires Valid()
      modifies this
      ensures Valid()
      ensures Step(Snapshot(), resp) == Update(old(Snapshot()), req)
    {
      ServiceProperties.UpdatePreservesValid(Snapshot(), req);
      var nit := req.nit;
      var nuevoEstado := req.estado;
      if !IsValidNit(nit) {
        return Reply(400, Error(MSG_INVALID_NIT));
      }
      if !IsValidEstado(nuevoEstado) {
        return Reply(400, Error(MSG_INVALID_ESTADO));
      }
      if nit.value !in rows {
        return Reply(404, Error(MSG_NOT_FOUND));
      }
      var empresa := rows[nit.value];
      empresa := empresa.(estado := nuevoEstado.value);
      rows := rows[nit.value := empresa];
      resp := Reply(200, Saved(MSG_UPDATED, AsDict(empresa)));
    }

    /** GET /empresas: one serialised entry per row. */
    method ListarEmpresas() returns (resp: Response)
      requires Valid()
      ensures resp == List(Snapshot())
      ensures resp.Reply? && resp.code == 200 && resp.body.Listing? && |resp.body.empresas| == |rows|
    {
      ServiceProperties.ListOneEntryPerRow(Snapshot());
      resp := Reply(200, Listing(set k | k in rows :: AsDict(rows[k])));
    }

    /** GET /empresa/<nit>. */
    method ConsultarEmpresa(nit: string) returns (resp: Response)
      ensures resp == Get(Snapshot(), nit)
    {
      if nit !in rows {
        return Reply(404, Error(MSG_NOT_FOUND));
      }
      resp := Reply(200, Found(AsDict(rows[nit])));
    }

    /** DELETE /empresa/<nit>. */
    method EliminarEmpresa(nit: string) returns (resp: Response)
      requires Valid()
      modifies this
      ensures Valid()
      ensures Step(Snapshot(), resp) == Delete(old(Snapshot()), nit)
    {
      ServiceProperties.DeletePreservesValid(Snapshot(), nit);
      if nit !in rows {
        return Reply(404, Error(MSG_NOT_FOUND));
      }
      rows := rows - {nit};
      resp := Reply(200, Done(MSG_DELETED));
    }
  }

  /** The end-to-end scenario run against the table object. */
  method ScenarioOnTable()
  {
    var t := new EmpresaTable();
    var r := t.ProcessData(CreateRequest(Some("900123456"), Some("Acme"), Some(JObject(map[]))));
    assert r == Reply(201, Saved(MSG_SAVED, AsDict(Empresa(1, "900123456", "Acme", "PENDIENTE", JNull))));
    assert IsValidNit(Some("900123456"));
    r := t.UpdateStatus(UpdateRequest(Some("900123456"), Some("PROCESADO")));
    assert r.Reply? && r.code == 200;
    r := t.ConsultarEmpresa("900123456");
    assert r == Reply(200, Found(AsDict(Empresa(1, "900123456", "Acme", "PROCESADO", JNull))));
    r := t.EliminarEmpresa("900123456");
    assert r == Reply(200, Done(MSG_DELETED));
    r := t.EliminarEmpresa("900123456");
    assert r == Reply(404, Error(MSG_NOT_FOUND));
  }

}
