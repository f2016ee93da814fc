/**
  What the handlers promise: validation order, nothing changes on failure,
  only `estado` changes on update, the create/update asymmetry on `nit`,
  delete-then-get, one serialised entry per row, and the table invariant.
 */
module ServiceProperties {

  import opened Wrappers
  import opened Json
  import opened Models
  import opened Validators
  import opened Service

  // ------------------------------------------------------ the invariant

  lemma CreatePreservesValid(s: Store, req: CreateRequest)
    requires ValidStore(s)
    ensures ValidStore(Create(s, req).store)
  {
  }

  lemma UpdatePreservesValid(s: Store, req: UpdateRequest)
    requires ValidStore(s)
    ensures ValidStore(Update(s, req).store)
  {
  }

  lemma DeletePreservesValid(s: Store, nit: string)
    requires ValidStore(s)
    ensures ValidStore(Delete(s, nit).store)
  {
  }

  /** Every table the service can reach from the empty one satisfies the invariant. */
  lemma {:induction false} RunPreservesValid(s: Store, rs: seq<Request>)
    requires ValidStore(s)
    ensures ValidStore(Run(s, rs))
    decreases |rs|
  {
    if rs != [] {
      var s' := Handle(s, rs[0]).store;
      match rs[0] {
        case ProcessDataReq(c) => CreatePreservesValid(s, c);
        case UpdateStatusReq(u) => UpdatePreservesValid(s, u);
        case ListReq =>
        case GetReq(nit) =>
        case DeleteReq(nit) => DeletePreservesValid(s, nit);
      }
      RunPreservesValid(s', rs[1..]);
    }
  }

  /** The unique `nit` column: two rows of a valid table never share a `nit`. */
  lemma AtMostOneRowPerNit(s: Store, k1: string, k2: string)
    requires ValidStore(s) && k1 in s.rows && k2 in s.rows
    ensures s.rows[k1].nit == s.rows[k2].nit ==> k1 == k2
  {
  }

  // ---------------------------------------------------- nothing changes

  /** A failed request, a list and a get leave the table exactly as it was. */
  lemma FailuresAndReadsLeaveStoreUnchanged(s: Store, r: Request)
    ensures !(Handle(s, r).response.Reply? && Handle(s, r).response.code in {200, 201}) ==> Handle(s, r).store == s
    ensures r.ListReq? || r.GetReq? ==> Handle(s, r).store == s
  {
  }

  // ------------------------------------------------------------- create

  /** 400 exactly when `nit` or `nombre` is missing, null or empty; the table is untouched. */
  lemma CreateRejectsMissingFields(s: Store, req: CreateRequest)
    ensures Create(s, req).response == Reply(400, Error(MSG_MISSING_FIELDS))
            <==> !Present(req.nit) || !Present(req.nombre)
    ensures !Present(req.nit) || !Present(req.nombre) ==> Create(s, req).store == s
  {
  }

  /**
    A create with both fields present and a new `nit` adds exactly one row,
    under that `nit`, with the given `nombre`, status PENDIENTE, an id no
    other row has, and `datos` kept when truthy and null otherwise; it
    answers 201 with that row.
   */
  lemma CreateAddsOneRow(s: Store, req: CreateRequest)
    requires ValidStore(s)
    requires Present(req.nit) && Present(req.nombre) && req.nit.value !in s.rows
    ensures var t := Create(s, req); var nit := req.nit.value;
      && t.store.rows.Keys == s.rows.Keys + {nit}
      && |t.store.rows| == |s.rows| + 1
      && (forall k | k in s.rows :: t.store.rows[k] == s.rows[k])
      && t.store.rows[nit].nit == nit
      && t.store.rows[nit].nombre == req.nombre.value
      && t.store.rows[nit].estado == PENDIENTE
      && (forall k | k in s.rows :: s.rows[k].id != t.store.rows[nit].id)
      && (req.datos.Some? && Truthy(req.datos.value) ==> t.store.rows[nit].datos == req.datos.value)
      && (!(req.datos.Some? && Truthy(req.datos.value)) ==> t.store.rows[nit].datos == JNull)
      && t.response == Reply(201, Saved(MSG_SAVED, AsDict(t.store.rows[nit])))
  {
  }

  /** A `nit` already stored never gets a second row: the commit fails and the table stays. */
  lemma CreateDuplicateFails(s: Store, req: CreateRequest)
    requires Present(req.nit) && Present(req.nombre) && req.nit.value in s.rows
    ensures Create(s, req) == Step(s, ServerError)
  {
  }

  /** Create followed by get returns the row just stored, with status PENDIENTE. */
  lemma CreateThenGet(s: Store, req: CreateRequest)
    requires ValidStore(s)
    requires Present(req.nit) && Present(req.nombre) && req.nit.value !in s.rows
    ensures var g := Get(Create(s, req).store, req.nit.value);
      && g.Reply? && g.code == 200 && g.body.Found?
      && FromDict(g.body.empresa).Some?
      && FromDict(g.body.empresa).value.nit == req.nit.value
      && FromDict(g.body.empresa).value.nombre == req.nombre.value
      && FromDict(g.body.empresa).value.estado == PENDIENTE
  {
  }

  // ------------------------------------------------------------- update

  /**
    The checks come in order: a bad `nit` is reported before a bad status,
    and both before a missing row; each failure leaves the table alone, and
    200 comes exactly when all three pass.
   */
  lemma UpdateValidationOrder(s: Store, req: UpdateRequest)
    ensures !IsValidNit(req.nit) ==> Update(s, req) == Step(s, Reply(400, Error(MSG_INVALID_NIT)))
    ensures IsValidNit(req.nit) && !IsValidEstado(req.estado) ==>
              Update(s, req) == Step(s, Reply(400, Error(MSG_INVALID_ESTADO)))
    ensures IsValidNit(req.nit) && IsValidEstado(req.estado) && req.nit.value !in s.rows ==>
              Update(s, req) == Step(s, Reply(404, Error(MSG_NOT_FOUND)))
    ensures Update(s, req).response.Reply? && Update(s, req).response.code == 200
            <==> IsValidNit(req.nit) && IsValidEstado(req.estado) && req.nit.value in s.rows
  {
  }

  /** A request that fails validation gets the same 400 whatever the table holds. */
  lemma UpdateValidationIgnoresStore(s1: Store, s2: Store, req: UpdateRequest)
    requires !IsValidNit(req.nit) || !IsValidEstado(req.estado)
    ensures Update(s1, req).response == Update(s2, req).response
    ensures Update(s1, req).response.Reply? && Update(s1, req).response.code == 400
  {
  }

  /**
    A successful update changes the `estado` of that one row and nothing
    else: the same keys, the same id, nit, nombre and datos, every other
    row as it was; it answers 200 with the updated row.
   */
  lemma UpdateChangesOnlyEstado(s: Store, req: UpdateRequest)
    requires IsValidNit(req.nit) && IsValidEstado(req.estado) && req.nit.value in s.rows
    ensures var t := Update(s, req); var nit := req.nit.value;
      && t.store.nextId == s.nextId
      && t.store.rows.Keys == s.rows.Keys
      && (forall k | k in s.rows && k != nit :: t.store.rows[k] == s.rows[k])
      && t.store.rows[nit].estado == req.estado.value
      && t.store.rows[nit].id == s.rows[nit].id
      && t.store.rows[nit].nit == s.rows[nit].nit
      && t.store.rows[nit].nombre == s.rows[nit].nombre
      && t.store.rows[nit].datos == s.rows[nit].datos
      && t.response == Reply(200, Saved(MSG_UPDATED, AsDict(t.store.rows[nit])))
  {
  }

  /** An update never touches a row whose stored `nit` fails the strict check. */
  lemma InvalidNitRowIsFrozen(s: Store, k: string, req: UpdateRequest)
    requires k in s.rows && !IsValidNit(Some(k))
    ensures k in Update(s, req).store.rows && Update(s, req).store.rows[k] == s.rows[k]
  {
  }

  /** Every row whose `nit` fails the strict check still has status PENDIENTE. */
  ghost predicate InvalidNitsPending(s: Store) {
    forall k | k in s.rows && !IsValidNit(Some(k)) :: s.rows[k].estado == PENDIENTE
  }

  /**
    The create/update asymmetry over any run: create admits any non-empty
    `nit`, but a row whose `nit` is not 6-15 digits keeps status PENDIENTE
    whatever requests follow.
   */
  lemma {:induction false} InvalidNitStaysPending(s: Store, rs: seq<Request>)
    requires InvalidNitsPending(s)
    ensures InvalidNitsPending(Run(s, rs))
    decreases |rs|
  {
    if rs != [] {
      var s' := Handle(s, rs[0]).store;
      match rs[0] {
        case ProcessDataReq(c) =>
        case UpdateStatusReq(u) =>
          forall k | k in s.rows && !IsValidNit(Some(k))
            ensures k in s'.rows && s'.rows[k] == s.rows[k]
          {
            InvalidNitRowIsFrozen(s, k, u);
          }
        case ListReq =>
        case GetReq(nit) =>
        case DeleteReq(nit) =>
      }
      InvalidNitStaysPending(s', rs[1..]);
    }
  }

  /** Such a row exists: create stores "ABC-123", which the update path rejects. */
  lemma NonNumericNitIsStoredButNotUpdatable(estado: Option<string>)
    ensures var t := Create(EMPTY, CreateRequest(Some("ABC-123"), Some("Acme"), None));
      && t.response.Reply? && t.response.code == 201
      && "ABC-123" in t.store.rows
      && Update(t.store, UpdateRequest(Some("ABC-123"), estado)) == Step(t.store, Reply(400, Error(MSG_INVALID_NIT)))
  {
    assert !IsDigit("ABC-123"[0]);
  }

  // --------------------------------------------------------- get, delete

  /** Get answers 200 with the stored row exactly when the `nit` is stored, 404 otherwise. */
  lemma GetFindsStoredRow(s: Store, nit: string)
    ensures Get(s, nit).Reply? && (Get(s, nit).code == 200 <==> nit in s.rows)
    ensures nit in s.rows ==> Get(s, nit).body.Found? && FromDict(Get(s, nit).body.empresa) == Some(s.rows[nit])
    ensures nit !in s.rows ==> Get(s, nit) == Reply(404, Error(MSG_NOT_FOUND))
  {
  }

  /**
    Delete removes exactly the row with that `nit`; a get or a second delete
    right after answers 404.
   */
  lemma DeleteThenNotFound(s: Store, nit: string)
    requires nit in s.rows
    ensures var t := Delete(s, nit);
      && t.response == Reply(200, Done(MSG_DELETED))
      && t.store.rows.Keys == s.rows.Keys - {nit}
      && |t.store.rows| == |s.rows| - 1
      && (forall k | k in t.store.rows :: t.store.rows[k] == s.rows[k])
      && Get(t.store, nit) == Reply(404, Error(MSG_NOT_FOUND))
      && Delete(t.store, nit) == Step(t.store, Reply(404, Error(MSG_NOT_FOUND)))
  {
  }

  // --------------------------------------------------------------- list

  /** Each entry of the serialised rows reads back as the row stored under its `nit`. */
  lemma SerialisedRowsReadBack(rows: map<string, Empresa>)
    requires forall k | k in rows :: rows[k].nit == k
    ensures forall k | k in rows :: AsDict(rows[k]) in SerialisedRows(rows)
    ensures forall d | d in SerialisedRows(rows) ::
              FromDict(d).Some? && FromDict(d).value.nit in rows && rows[FromDict(d).value.nit] == FromDict(d).value
  {
  }

  /**
    Serialising the rows keyed by their own `nit` gives one entry per row:
    no two rows collapse into one entry.
   */
  lemma {:induction false} SerialisedRowsCount(rows: map<string, Empresa>)
    requires forall k | k in rows :: rows[k].nit == k
    ensures |SerialisedRows(rows)| == |rows|
    decreases |rows|
  {
    if rows != map[] {
      var k :| k in rows;
      var rest := rows - {k};
      assert rest.Keys == rows.Keys - {k};
      SerialisedRowsCount(rest);
      SerialisedRowsReadBack(rest);
      var e := AsDict(rows[k]);
      SerialisedRowsSplit(rows, k);
      assert FromDict(e) == Some(rows[k]);
      assert e !in SerialisedRows(rest);
      assert |rest| == |rows| - 1 by {
        assert |rest.Keys| == |rows.Keys| - 1;
      }
    }
  }

  /** Taking one row out of the map takes exactly its entry out of the serialised rows. */
  lemma SerialisedRowsSplit(rows: map<string, Empresa>, k: string)
    requires k in rows
    ensures SerialisedRows(rows) == SerialisedRows(rows - {k}) + {AsDict(rows[k])}
  {
    var rest := rows - {k};
    forall d | d in SerialisedRows(rows)
      ensures d in SerialisedRows(rest) + {AsDict(rows[k])}
    {
      var j :| j in rows && d == AsDict(rows[j]);
      if j != k {
        assert j in rest && rest[j] == rows[j];
      }
    }
    forall d | d in SerialisedRows(rest)
      ensures d in SerialisedRows(rows)
    {
      var j :| j in rest && d == AsDict(rest[j]);
      assert j in rows && rows[j] == rest[j];
    }
  }

  /** List answers 200 with one serialised entry per stored row. */
  lemma ListOneEntryPerRow(s: Store)
    requires ValidStore(s)
    ensures List(s).Reply? && List(s).code == 200 && List(s).body.Listing?
    ensures |List(s).body.empresas| == |s.rows|
    ensures forall k | k in s.rows :: AsDict(s.rows[k]) in List(s).body.empresas
  {
    SerialisedRowsReadBack(s.rows);
    SerialisedRowsCount(s.rows);
  }

  // ----------------------------------------------------------- scenario

  /**
    Create 900123456/Acme, set it to PROCESADO, read it, delete it, read it
    again: 201 with PENDIENTE and null datos, 200 with PROCESADO, 200 with
    PROCESADO, 200, then 404.
   */
  lemma Scenario()
    ensures var c := Create(EMPTY, CreateRequest(Some("900123456"), Some("Acme"), None));
      var u := Update(c.store, UpdateRequest(Some("900123456"), Some("PROCESADO")));
      var g := Get(u.store, "900123456");
      var d := Delete(u.store, "900123456");
      && c.response == Reply(201, Saved(MSG_SAVED, AsDict(Empresa(1, "900123456", "Acme", "PENDIENTE", JNull))))
      && u.response == Reply(200, Saved(MSG_UPDATED, AsDict(Empresa(1, "900123456", "Acme", "PROCESADO", JNull))))
      && g == Reply(200, Found(AsDict(Empresa(1, "900123456", "Acme", "PROCESADO", JNull))))
      && d.response == Reply(200, Done(MSG_DELETED))
      && Get(d.store, "900123456") == Reply(404, Error(MSG_NOT_FOUND))
  {
  }

}
