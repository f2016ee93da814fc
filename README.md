# Empresa record service — a Dafny model

This project models the record-keeping core of a small Flask service that
stores companies (`Empresa`) keyed by their tax id (`nit`), with a name
(`nombre`), a status (`estado`: `PENDIENTE`, `PROCESADO` or `ERROR`) and an
optional JSON blob (`datos`). Five handlers work on the table: create
(`process_data`), `update_status`, list (`listar_empresas`), get
(`consultar_empresa`) and delete (`eliminar_empresa`).

Layout:

- `wrappers.dfy` — `Option`, for request fields that are missing or null.
- `json.dfy` — JSON values without floats and Python truthiness over them.
- `validators.dfy` — `is_valid_nit`, `is_valid_nombre`, `is_valid_estado`,
  with `str.isdigit` and `str.strip` restricted to ASCII, a recogniser for
  `^[0-9]{6,15}$` as an independent definition of a valid nit, and
  `lstrip`/`rstrip`/`strip` with their meaning proved.
- `models.dfy` — the `Empresa` row, the `estado` column default, and
  `as_dict` with a reader `FromDict` that inverts it.
- `service.dfy` — the table as a value (`Store`: map from `nit` to row plus
  the next id), the table invariant `ValidStore`, and each handler as a
  function `Create`, `Update`, `List`, `Get`, `Delete` returning the new
  table and the response (status code and body). `Handle` routes one
  request and `Run` a sequence of them.
- `service_properties.dfy` — the properties of those functions.
- `table.dfy` — class `EmpresaTable`, whose fields are the rows and the id
  counter; its methods are the handlers written step by step (the create
  handler pops a falsy `datos` before reading it, the update handler
  assigns `estado` on the row it found), each proved to produce exactly the
  step its `Service` function describes and to keep the invariant.

Points where the code's behaviour is easy to misread:

- `as_dict` always has a `datos` key, bound to null when the row holds no
  data; it is never omitted.
- `is_valid_nombre` is defined but no handler calls it; create checks
  `nombre` only for truthiness, so a blank name such as `"  "` is stored.
- The status labels are the Spanish ones the code uses.
- A successful create answers 201 (the route's API docstring says 200).
- A duplicate `nit` on create is not answered with its own code: the
  database's unique constraint fails the commit and the exception surfaces
  as a generic server error (`ServerError`), with the table unchanged.

## Model

| member | source | states |
|---|---|---|
| `Json.Truthy` | src/app/routes.py:57-67 | Python truthiness of a JSON value, as the `not` tests use it; specified by `Json.FalsyValues` |
| `Validators.IsValidNit` | src/app/routes.py:6-8 | `is_valid_nit`; specified by `Validators.NitMatchesPattern` |
| `Validators.IsValidNombre` | src/app/routes.py:10-12 | `is_valid_nombre`; specified by `Validators.NombreValidIffNonBlank` |
| `Validators.IsValidEstado` | src/app/routes.py:14-16 | `is_valid_estado`; specified by `Validators.EstadoLabels` |
| `Models.NewEmpresa` | src/app/models.py:5-10 | a new row takes its id from the store and its estado from the column default PENDIENTE; specified by `ServiceProperties.CreateAddsOneRow` |
| `Models.FromDict` | src/app/models.py:12-19 | reads a row back from its five-key serialisation; the inverse stated in `Models.AsDict` |
| `Service.Create` | src/app/routes.py:52-81 | `process_data`; specified by `ServiceProperties.CreateRejectsMissingFields`, `CreateAddsOneRow`, `CreateDuplicateFails`, `CreatePreservesValid` |
| `Service.Update` | src/app/routes.py:104-120 | `update_status`; specified by `ServiceProperties.UpdateValidationOrder`, `UpdateChangesOnlyEstado`, `InvalidNitRowIsFrozen`, `UpdatePreservesValid` |
| `Service.List` | src/app/routes.py:142-143 | `listar_empresas`; specified by `ServiceProperties.ListOneEntryPerRow` |
| `Service.Get` | src/app/routes.py:171-174 | `consultar_empresa`; specified by `ServiceProperties.GetFindsStoredRow` |
| `Service.Delete` | src/app/routes.py:202-207 | `eliminar_empresa`; specified by `ServiceProperties.DeleteThenNotFound`, `DeletePreservesValid` |
| `Service.Handle` | src/app/routes.py:31-207 | one request through the five routes; specified by `ServiceProperties.FailuresAndReadsLeaveStoreUnchanged` |
| `Service.Run` | src/app/routes.py:31-207 | a sequence of requests handled in turn; specified by `ServiceProperties.RunPreservesValid` and `InvalidNitStaysPending` |
| `Json.FalsyValues` | src/app/routes.py:57-67 | exactly None, False, 0, "", [] and {} are falsy |
| `Validators.DigitRunMeaning` | src/app/routes.py:6-8 | the recogniser for `^[0-9]{lo,hi}$` accepts exactly the all-digit strings with length in lo..hi |
| `Validators.NitMatchesPattern` | src/app/routes.py:6-8 | `is_valid_nit` holds iff the nit is a string (not null) matching `^[0-9]{6,15}$` |
| `Validators.LStrip` | src/app/routes.py:12 | the result is the suffix left after the leading whitespace, and starts with a non-space |
| `Validators.RStrip` | src/app/routes.py:12 | the result is the prefix left before the trailing whitespace, and ends with a non-space |
| `Validators.Strip` | src/app/routes.py:12 | `strip` is the slice of the string with only whitespace before and after it, which starts and ends with a non-space; it is empty iff the string is all whitespace |
| `Validators.NombreValidIffNonBlank` | src/app/routes.py:10-12 | `is_valid_nombre` holds iff the name is a string (not null) with a non-whitespace character |
| `Validators.EstadoLabels` | src/app/routes.py:14-16 | `is_valid_estado` holds for PENDIENTE, PROCESADO and ERROR and for nothing else, null included |
| `Models.AsDict` | src/app/models.py:12-19 | exactly the keys id, nit, nombre, estado, datos; datos present (null when empty); `FromDict` reads the same row back |
| `Models.AsDictInjective` | src/app/models.py:12-19 | two rows with equal serialisations are equal |
| `Service.StoredDatos` | src/app/routes.py:60-67 | the stored `datos` is the given value when truthy and null when absent or falsy; it is never `{}` |
| `ServiceProperties.CreatePreservesValid` | src/app/routes.py:69-76 | create keeps the invariant: nit unique and non-empty, nombre non-empty, ids distinct, estado a label, datos null or truthy |
| `ServiceProperties.UpdatePreservesValid` | src/app/routes.py:109-119 | update keeps the table invariant |
| `ServiceProperties.DeletePreservesValid` | src/app/routes.py:202-206 | delete keeps the table invariant |
| `ServiceProperties.RunPreservesValid` | src/app/models.py:6-10 | every table reachable by any sequence of requests satisfies the schema's constraints (unique non-null nit, non-null nombre, unique id) |
| `ServiceProperties.AtMostOneRowPerNit` | src/app/models.py:7 | in a valid table no two rows share a nit |
| `ServiceProperties.FailuresAndReadsLeaveStoreUnchanged` | src/app/routes.py:57-207 | any request answered with neither 200 nor 201, and every list or get, leaves the table unchanged |
| `ServiceProperties.CreateRejectsMissingFields` | src/app/routes.py:57-58 | create answers 400 iff nit or nombre is missing, null or empty, and then changes nothing |
| `ServiceProperties.CreateAddsOneRow` | src/app/routes.py:60-81 | a successful create adds exactly one row with the given nit and nombre, estado PENDIENTE, an id no other row has and normalised datos, and answers 201 with it |
| `ServiceProperties.CreateDuplicateFails` | src/app/routes.py:75-76 | a nit already stored yields a failure and no second row |
| `ServiceProperties.CreateThenGet` | src/app/routes.py:69-81 | create then get returns the row with the given nit and nombre and status PENDIENTE |
| `ServiceProperties.UpdateValidationOrder` | src/app/routes.py:109-116 | nit checked first (400), then estado (400), then existence (404), each leaving the table unchanged; 200 iff all pass |
| `ServiceProperties.UpdateValidationIgnoresStore` | src/app/routes.py:109-112 | an invalid nit or estado gets the same 400 whatever the table holds |
| `ServiceProperties.UpdateChangesOnlyEstado` | src/app/routes.py:114-120 | a successful update changes only that row's estado; all other fields and rows stay; answers 200 with the updated row |
| `ServiceProperties.InvalidNitRowIsFrozen` | src/app/routes.py:109-110 | an update never changes a row whose stored nit fails `is_valid_nit` |
| `ServiceProperties.InvalidNitStaysPending` | src/app/routes.py:57-118 | after any sequence of requests, every row whose nit fails the strict check still has status PENDIENTE |
| `ServiceProperties.NonNumericNitIsStoredButNotUpdatable` | src/app/routes.py:57-110 | create accepts the nit "ABC-123" (201) but every update of it answers 400 |
| `ServiceProperties.GetFindsStoredRow` | src/app/routes.py:171-174 | get answers 200 with the stored row iff the nit is stored, otherwise 404 |
| `ServiceProperties.DeleteThenNotFound` | src/app/routes.py:202-207 | delete removes exactly that row and answers 200; a get or second delete right after answers 404 |
| `ServiceProperties.SerialisedRowsReadBack` | src/app/routes.py:143 | every row's serialisation is listed, and every listed entry reads back as the row stored under its nit |
| `ServiceProperties.SerialisedRowsCount` | src/app/routes.py:143 | the listing has exactly as many entries as there are rows |
| `ServiceProperties.ListOneEntryPerRow` | src/app/routes.py:142-143 | list answers 200 with one serialised entry per stored row |
| `ServiceProperties.Scenario` | src/app/routes.py:52-207 | create 900123456/Acme gives 201 with PENDIENTE and null datos; update to PROCESADO gives 200; get shows PROCESADO; delete gives 200; get then gives 404 |
| `Table.EmpresaTable.constructor` | src/app/models.py:5-10 | a new table is empty and valid |
| `Table.EmpresaTable.ProcessData` | src/app/routes.py:52-81 | the in-place create yields exactly the table and response of `Create`, keeping the invariant |
| `Table.EmpresaTable.UpdateStatus` | src/app/routes.py:104-120 | the in-place update yields exactly the table and response of `Update`, keeping the invariant |
| `Table.EmpresaTable.ListarEmpresas` | src/app/routes.py:142-143 | answers `List` of the table: 200 with as many entries as rows |
| `Table.EmpresaTable.ConsultarEmpresa` | src/app/routes.py:171-174 | answers `Get` of the table and changes nothing |
| `Table.EmpresaTable.EliminarEmpresa` | src/app/routes.py:202-207 | the in-place delete yields exactly the table and response of `Delete`, keeping the invariant |

## Left out

- Flask plumbing: the blueprint, the route decorators, `request.get_json`, `jsonify` and the `home` banner (a constant reply). `Handle` stands for the routing.
- A request body that is not a JSON object (`get_json` failing or giving something else). The handlers would raise, and Flask answers 500. This is not modelled.
- Flask's `<nit>` path converter. It only matches a non-empty segment without '/'. Here `GetReq` and `DeleteReq` take any string. Create stores any truthy nit, such as "12/34", and the model's `Get` finds that row. In the service no GET or DELETE URL reaches it, and the strict nit check also blocks its update.
- Request fields whose JSON value is not a string (a numeric `nit`, say). Fields are optional strings here, so `isinstance(..., str)` is not modelled beyond null.
- `str.isdigit` and `str.strip` on non-ASCII characters. Python also accepts other Unicode digits and strips Unicode whitespace; the model uses ASCII only.
- Floating-point numbers inside `datos`.
- `create_app`, the database URI fallback and the API documentation set-up: configuration wiring only.
- SQLAlchemy sessions, transactions, the database engine and concurrent requests. The table is one map updated atomically per request.
- The order of `Empresa.query.all()`. The listing is a set of serialised rows.
- Id assignment: the model hands out ids from a counter. SQLite may reuse the id of a deleted last row. The model only promises that a new id differs from every stored one.
- A null `estado` column value. No handler can produce one, since create relies on the column default and update only stores a valid label.
