# Ambulance dispatch engine of ms-despacho, in Dafny

This project models the dispatch core of the ms-despacho service (PHP,
Laravel). That core covers these parts:

- the geospatial service: coordinate validation, distances, the nearest
  point, ranking by distance, radius test, midpoint and travel time;
- the pure part of the arrival-time predictor: the features, the cache, the
  fallback formula and the batch call;
- the assignment service. It picks the nearest available vehicle and
  reserves the crew of each requested role, all or nothing. It creates a
  dispatch and closes it, which releases the vehicle and the crew;
- the three Eloquent models with their scopes and status changes:
  `Ambulancia`, `Personal` and `Despacho`;
- the REST controllers for vehicles and dispatches;
- the GraphQL mutations that change dispatch status, assign and unassign
  crew, create, update and change the status of crew members, and record
  feedback;
- the GraphQL queries for statistics, recent dispatches, dispatch listings
  and crew listings.

Modelling choices:

- **Tables.** Each table is a sequence of immutable rows held in one
  `Records.Db` value. Row order is primary-key order, so "the first N
  matching rows" of an unordered query is a prefix in table order.
- **Events.** The broadcast events go into an event log inside the same
  value.
- **Transactions.** A rolled-back transaction returns the store it was
  given.
- **Exceptions.** A thrown exception is a `Failure` of the `Records.Falla`
  kinds.
- **HTTP responses.** An HTTP response is its status code plus the store.
- **Distances.** The Haversine distance comes from a library. It is a
  function-valued parameter returning metres.
- **Rounding.** PHP's `round(x, 2)`, `ceil` and `(int)` are computed
  exactly on reals.
- **Clock.** The clock is a parameter `ahora`, in minutes. The actual
  travel time is the signed difference arrival minus assignment, as
  Carbon 3's `diffInMinutes` gives it. Carbon 2 would give the absolute
  value.

Modules, leaf first:

- `Wrappers`, `Numeric`, `Seqs`: option/result types, exact rounding, and
  the query-builder helpers (`where`, `limit`, `offset`, `take`, and a sort
  proved stable by `Seqs.SortByEstable`).
- `Enums`: the enum columns of the migrations. Each has its spelling and a
  parser.
- `Records`: rows, the store, key lookups and fresh keys.
- `Gps`: the geospatial service.
- `Ml`: the arrival-time predictor.
- `Ambulancias`, `Personales`, `Despachos`: the models.
- `AsignacionAmbulancia`, `AsignacionPersonal`, `CicloDespacho`: the
  assignment service. It is split into vehicle search, crew reservation and
  release, and dispatch creation and closing.
- `Http`, `ControladorAmbulancias`, `ControladorDespachos`: the REST
  controllers.
- `Mutaciones`, `Consultas`: the GraphQL mutations and queries.

The code behaves as follows where a reader might expect otherwise, and the
model follows it:

- **Status changes.** Any status can be set from any status; there is no
  transition table. See `ControladorDespachos.CualquierEstadoAlcanzable` and
  `ControladorAmbulancias.CualquierEstadoAlcanzable`.
- **Closing time.** A second closing request through REST overwrites the
  closing time (`ControladorDespachos.CierreSobrescribeFecha`).
- **GraphQL closing.** Closing through the GraphQL status mutation releases
  nothing (`Mutaciones.MutacionCierraSinLiberar`).
- **Predictor errors.** The predictor reports an error when the remote call
  fails and the fallback is switched off in configuration
  (`Ml.SinFallbackFallaSinCache`).
- **Feedback rating.** The feedback rating is not range-checked.
- **Negative request id.** `solicitud_id` passes `nullable|integer` when
  negative, but its column is unsigned. Once a vehicle is found the insert
  throws, the transaction rolls back and the request gets 500.
- **Statistics.** The statistics report five of the seven dispatch states
  (`Consultas.EstadisticasOmitenAsignadosYTraslados`).

## Model

| member | source | states |
|---|---|---|
| Enums.ParseNameRoundTrip | database/migrations/2025_10_25_052103_create_despachos_table.php:39-42 | Every value of each enum column parses back from its stored spelling, so no two values share a spelling. |
| Gps.ValidarCoordenadasMagnitud | app/Services/GpsService.php:185-188 | A coordinate is valid exactly when the latitude is at most 90 and the longitude at most 180 in magnitude, bounds included. |
| Gps.ConvertirUnidad | app/Services/GpsService.php:197-205 | The converted distance is within half a cent of the exact metres-to-unit quotient and is already rounded to two decimals. |
| Gps.UnidadDesconocidaEsKm | app/Services/GpsService.php:197-205 | An unknown unit gives the same figure as kilometres, and metres are only rounded. |
| Gps.ConvertirUnidadMonotona | app/Services/GpsService.php:197-205 | A longer distance never converts to a smaller figure. |
| Gps.CalcularDistancia | app/Services/GpsService.php:20-34 | The distance in a unit is the library's metres converted and rounded, within half a cent. |
| Gps.EstimarTiempoViaje | app/Services/GpsService.php:214-224 | The estimate is 0 for a non-positive distance or speed, and otherwise the least whole number of minutes not below distance / speed * 60. |
| Gps.EstimarTiempoViajeEjemplos | app/Services/GpsService.php:214-224 | 100 km at 40 km/h takes 150 minutes, 40 km at the default speed takes 60, and 0 km takes 0. |
| Gps.EstimarTiempoViajeMonotono | app/Services/GpsService.php:214-224 | A longer distance at the same speed never takes fewer minutes. |
| Gps.IndiceMinimo | app/Services/GpsService.php:72-101 | The scan finds the first index of the least distance below the initial float maximum, and finds none only when no distance is below it. |
| Gps.PrimerMinimoUnico | app/Services/GpsService.php:84-95 | The strict `<` of the scan makes the first minimum unique, so ties go to the earliest point. |
| Gps.EncontrarPuntoMasCercano | app/Services/GpsService.php:72-101 | There is no result for an empty list. Otherwise the result is an input point annotated with its own distance, and no input point is closer. |
| Gps.MasCercanoEsMinimo | app/Services/GpsService.php:72-101 | The returned point is one of the inputs, and every input is at least as far away. |
| Gps.OrdenarPorDistancia | app/Services/GpsService.php:111-134 | The result is the annotated input reordered (same multiset), in ascending distance. |
| Gps.OrdenarEsEstable | app/Services/GpsService.php:129-131 | The sort is stable, as `usort` is: points at the same distance keep their input order. |
| Gps.OrdenarEsPermutacion | app/Services/GpsService.php:111-134 | Dropping the distances gives back a permutation of the input points. |
| Gps.OrdenarEmpiezaPorMasCercano | app/Services/GpsService.php:72-134 | The head of the ranking is exactly as far as the nearest point. |
| Gps.CalcularDistanciaRuta | app/Services/GpsService.php:43-62 | A route of fewer than two points has length 0. Otherwise it is the sum of the distances between consecutive points, each computed in the requested unit, rounded to two decimals. Every route length is a rounded figure. |
| Gps.RutaDeDosPuntos | app/Services/GpsService.php:43-62 | A two-point route is as long as the single distance between the points. |
| Gps.TramosConcatenados | app/Services/GpsService.php:43-62 | Joining two routes at a shared point adds their lengths. |
| Gps.RutaNoNegativa | app/Services/GpsService.php:43-62 | A non-negative distance function gives a non-negative route length. |
| Gps.RadioMonotono | app/Services/GpsService.php:146-155 | A point within a radius is within every larger radius. |
| Gps.OrigenDentroDelRadio | app/Services/GpsService.php:146-155 | With a zero self-distance, the origin is within a radius exactly when that radius is non-negative. |
| Gps.PuntoMedioSimetricoYValido | app/Services/GpsService.php:166-176 | The midpoint is symmetric in its arguments and valid when both ends are valid. |
| Ml.TipoAmbulanciaCodigoOrden | app/Services/MlService.php:192-214 | The tier codes are 0 to 3 in increasing order of equipment, one per tier. |
| Ml.TipoAmbulanciaCodigo | app/Services/MlService.php:192-214 | Every code lies in 0..3, and an unknown tier counts as `intermedia`. |
| Ml.VelocidadFallbackTabla | app/Services/MlService.php:223-251 | The banded hour-of-day speeds agree, hour by hour, with an explicit 24-entry table. |
| Ml.FallbackEstimacion | app/Services/MlService.php:223-251 | The fallback fails exactly when it is disabled. Otherwise it is the least whole number of minutes not below distance / speed * 60, and positive for a positive distance. |
| Ml.FallbackComoEstimacion | app/Services/MlService.php:223-251 | The fallback equals the travel-time estimate at the hour's speed, and equals the dispatch estimate at 40 km/h hours. |
| Ml.FallbackMasLentoTardaMas | app/Services/MlService.php:223-251 | A slower hour never gives a shorter fallback estimate. |
| Ml.PredecirTiempoLlegada | app/Services/MlService.php:30-90 | A cached value wins. Otherwise a successful remote answer is truncated to whole minutes, and a failed call gives the fallback. An unreachable cache stays unreachable, and entries for other features keep their values. |
| Ml.SegundaLlamadaDesdeCache | app/Services/MlService.php:30-90 | After a successful remote answer, the same request is answered from the cache with the same minutes, whatever the remote does. |
| Ml.SinFallbackFallaSinCache | app/Services/MlService.php:30-90 | A remote failure with no cached value and the fallback disabled is an error. |
| Ml.PredecirBatch | app/Services/MlService.php:312-339 | A successful remote batch is returned as is. A failed one gives the fallback of each item at the hour the clock shows for that item, and fails only when the fallback is disabled and there are items. |
| Ml.BatchComoLlamadasSueltas | app/Services/MlService.php:312-339 | Each item of a failed batch gets the same minutes a failed single prediction would get at the same hour. |
| Ambulancias.ScopesDisjuntos | app/Models/Ambulancia.php:45-56 | The available scope and the in-service scope never share a row. |
| Ambulancias.MarcarIdaYVuelta | app/Models/Ambulancia.php:77-88 | Taking an available vehicle into service and releasing it gives back the same row. |
| Ambulancias.ActualizarUbicacion | app/Models/Ambulancia.php:93-103 | Only the position and the update time of that vehicle change, and one location event is appended. |
| Personales.ScopePorRol | app/Models/Personal.php:63-66 | The result holds exactly the members with that role. A role name outside the enum selects nobody. |
| Personales.CambiarEstado | app/Models/Personal.php:95-102 | Only that member's status changes, and the event carries the previous and the new status. |
| Personales.MarcarIdaYVuelta | app/Models/Personal.php:79-90 | In service then available restores the crew table, and both events stay in order. |
| Personales.NombreCompletoSeSepara | app/Models/Personal.php:123-126 | The full name splits back into first name, one space and surname. |
| Despachos.ActivoSiNoPendienteNiTerminal | app/Models/Despacho.php:116-119 | A dispatch is active exactly when it is neither pending, completed nor cancelled. |
| Despachos.ActivosPorEstado | app/Models/Despacho.php:92-103 | Every row of the active scope is selected by the status scope of one of the four active states. |
| Despachos.CambiarEstadoDosVeces | app/Models/Despacho.php:124-131 | Two status changes keep only the second status and log both moves in order. |
| Despachos.CalcularTiempoReal | app/Models/Despacho.php:136-142 | There is a value exactly when both stamps exist, and assignment time plus the value is the arrival time. |
| Despachos.Responsable | app/Models/Despacho.php:147-152 | The responsible member is the crew row behind the first link of the dispatch flagged responsible, if any. |
| AsignacionAmbulancia.Candidatas | app/Services/AsignacionService.php:42-50 | The result holds exactly the vehicles that are available, have both coordinates and are of the required tier when a tier is required. |
| AsignacionAmbulancia.EncontrarAmbulanciaMasCercana | app/Services/AsignacionService.php:30-93 | A vehicle is found exactly when the origin is valid and some candidate lies within the radius. The vehicle found is a candidate within the radius, and no candidate is closer. |
| AsignacionAmbulancia.RadioMayorConservaResultado | app/Services/AsignacionService.php:30-93 | A larger radius finds the same vehicle a smaller one found. |
| AsignacionAmbulancia.ListarAmbulanciasPorDistancia | app/Services/AsignacionService.php:103-140 | The list has min(`limite`, candidates) entries, or min(`-limite`, candidates) for a negative limit. Each entry is an available vehicle with a position, annotated with its distance, in ascending distance. No candidate is listed more often than it occurs. No left-out candidate is nearer than a listed one; for a negative limit, which keeps the far end, none is farther. |
| AsignacionAmbulancia.ListadoEmpiezaPorMasCercana | app/Services/AsignacionService.php:30-140 | The head of the listing is as close as the vehicle the nearest-vehicle search finds. |
| AsignacionPersonal.Lote | app/Services/AsignacionService.php:164-167 | A role's batch is the first `cantidad` available members of that role, in table order. A negative quantity takes all of them. |
| AsignacionPersonal.AsignarPersonal | app/Services/AsignacionService.php:149-215 | A failure is a duplicate link, with the store rolled back. Nothing but crew, links and events ever changes. |
| AsignacionPersonal.AsignarPersonalSegunPlan | app/Services/AsignacionService.php:149-215 | When a role is short, nothing changes and the list is empty. Otherwise the reserved list is the plan computed on the original table. Exactly the planned rows go into service, with one link and one event per member. |
| AsignacionPersonal.AsignarPersonalVacio | app/Services/AsignacionService.php:149-215 | An empty reservation leaves the store as it was. |
| AsignacionPersonal.PlanResponsables | app/Services/AsignacionService.php:179-196 | In the plan, a member is flagged responsible exactly when it is the first of its role. |
| AsignacionPersonal.PlanDisponible | app/Services/AsignacionService.php:164-167 | A planned member was available before the reservation. |
| AsignacionPersonal.LiberarPersonal | app/Services/AsignacionService.php:223-250 | No link of the dispatch remains and every other link is kept. Crew rows change only in status, and nothing else changes. |
| AsignacionPersonal.LiberarPersonalEstados | app/Services/AsignacionService.php:223-250 | With unique keys, a crew row becomes available exactly when a link of the dispatch points to it. Other rows keep their status. |
| AsignacionPersonal.ReservarYLiberar | app/Services/AsignacionService.php:149-250 | Reserving the crew of an unlinked dispatch and then releasing it restores the crew and link tables. |
| CicloDespacho.Clasificacion | app/Services/AsignacionService.php:296-300 | The incident and priority are accepted exactly when their values, or the defaults `emergencia_medica` and `media`, are in the enum lists. |
| CicloDespacho.NuevaFila | app/Services/AsignacionService.php:285-301 | The inserted row has a key no existing row has, is `asignado` with request and assignment time now, and carries the vehicle, its distance, the estimate at the city speed, and the requested id. |
| CicloDespacho.CrearDespacho | app/Services/AsignacionService.php:258-344 | A null result or a failure leaves the store unchanged. On success the new row is the last one, `asignado`, with the vehicle the search found at its distance, the request's origin, classification and non-negative request id, and the creation event. |
| CicloDespacho.CrearDespachoSegunPlan | app/Services/AsignacionService.php:258-344 | On a consistent store the creation fails exactly when a vehicle is found and the insert is refused: an incident or priority outside its enum, or a negative request id in the unsigned column. It is null exactly when no vehicle qualifies, or the insert succeeds and the crew plan is short or empty. Otherwise it links and puts in service exactly the planned crew. |
| CicloDespacho.FilaFinal | app/Services/AsignacionService.php:357-368 | The closed row has the result as status and now as closing time. Its actual time is recomputed when it was assigned, and nothing else changes. |
| CicloDespacho.FinalizarDespacho | app/Services/AsignacionService.php:353-397 | It fails (and rolls back) exactly when the result is not a dispatch status. Otherwise only that row is closed, exactly the links of the dispatch are removed, the tracking table is untouched, and the last event is the closing one. |
| CicloDespacho.FinalizarTablas | app/Services/AsignacionService.php:353-397 | The closing writes exactly the closed row, the vehicle released by its key and the crew released by the dispatch's links. |
| CicloDespacho.CrearYFinalizar | app/Services/AsignacionService.php:258-397 | Creating a dispatch and then closing it restores the vehicle, crew and link tables, and leaves only the closed row added. |
| ControladorAmbulancias.Index | app/Http/Controllers/Api/AmbulanciaController.php:19-39 | The listing holds every vehicle that passes all given filters, as often as in the table and nothing else, sorted by plate. |
| ControladorAmbulancias.IndexFiltrosExcluyentes | app/Http/Controllers/Api/AmbulanciaController.php:19-39 | Asking for `disponibles` together with a different status lists nothing. |
| ControladorAmbulancias.ActualizarUbicacion | app/Http/Controllers/Api/AmbulanciaController.php:67-98 | The answer is 422 exactly for missing or out-of-range coordinates, 404 exactly for an unknown vehicle, otherwise 200. Only 200 changes the store: the position, time and event of that vehicle. |
| ControladorAmbulancias.UbicacionHaceCandidata | app/Http/Controllers/Api/AmbulanciaController.php:67-98 | After an update the vehicle sits at the reported position. It is a search candidate exactly when it is available. |
| ControladorAmbulancias.UltimaUbicacionGana | app/Http/Controllers/Api/AmbulanciaController.php:67-98 | Of two location updates, the second one's position and time remain. |
| ControladorAmbulancias.ActualizarEstado | app/Http/Controllers/Api/AmbulanciaController.php:107-134 | The answer is 422 exactly for a missing or unknown status, 404 for an unknown vehicle, otherwise 200 with only that vehicle's status changed and no event. |
| ControladorAmbulancias.EstadoIdaYVuelta | app/Http/Controllers/Api/AmbulanciaController.php:107-134 | Setting a new status and then the old one back restores the store. |
| ControladorDespachos.Index | app/Http/Controllers/Api/DespachoController.php:24-45 | The listing holds every dispatch that passes all given filters, as often as in the table and nothing else, newest first. |
| ControladorDespachos.IndexEmpiezaPorMasReciente | app/Http/Controllers/Api/DespachoController.php:24-45 | The first row listed matches the filters, and no matching row is newer. |
| ControladorDespachos.Store | app/Http/Controllers/Api/DespachoController.php:53-97 | The answer is 422 exactly when validation fails, which includes a request id or destination coordinate that is present but not a number. Only 201 changes the store. A 201 appends one `asignado` row with a fresh key, the request's origin and request id, and the given or default incident and priority. |
| ControladorDespachos.ValidadaFallaSoloPorSolicitud | app/Http/Controllers/Api/DespachoController.php:53-97 | On a consistent store a valid request gets 500 exactly when a vehicle is found and its request id is negative, which the validator accepts and the unsigned column refuses. It gets 503 exactly when no vehicle qualifies, or the id is accepted and the crew plan is short or empty. |
| ControladorDespachos.Update | app/Http/Controllers/Api/DespachoController.php:126-177 | The answer is 422 exactly for a missing or unknown status, 404 exactly for an unknown dispatch, otherwise 200. A 200 leaves the other dispatch rows alone, logs the status event first, and stamps the state's time when still empty. A closing state then leaves the row exactly as the service's closing of the row as it was: status, closing time now, and the actual time recomputed. It removes every link of the dispatch, keeps every link of other dispatches, and ends with the closing event. |
| ControladorDespachos.Sellar | app/Http/Controllers/Api/DespachoController.php:148-168 | Each state stamps only its own time (`en_camino` the assignment, `en_sitio` the arrival, the closing states the closing time), and only when it is still empty. |
| ControladorDespachos.CerrarLibera | app/Http/Controllers/Api/DespachoController.php:126-177 | Closing makes the vehicle available again, and puts back in the available state exactly the crew that was linked. |
| ControladorDespachos.PrimerSelloGana | app/Http/Controllers/Api/DespachoController.php:148-159 | Repeating `en_camino` or `en_sitio` leaves the stamped dispatch row as it is. |
| ControladorDespachos.CierreSobrescribeFecha | app/Http/Controllers/Api/DespachoController.php:160-168 | A second closing request replaces the closing time with the later one. |
| ControladorDespachos.RegistrarRastreo | app/Http/Controllers/Api/DespachoController.php:186-233 | The answer is 422 exactly for invalid coordinates, a negative speed or accuracy, or a speed, altitude or accuracy that is present but not a number. It is 404 for an unknown dispatch, otherwise 201 with one tracking sample appended and the vehicle moved. |
| ControladorDespachos.RastreoComoUbicacion | app/Http/Controllers/Api/DespachoController.php:186-233 | The vehicle table and events after a tracking report equal those of a location update of that vehicle. |
| Mutaciones.ActualizarEstadoDespacho | app/GraphQL/Mutations/ActualizarEstadoDespachoMutation.php:36-66 | An unknown dispatch or a status the column refuses fails with the store unchanged. Otherwise the mutation sets the status and stamps, and appends the event, but releases nothing. |
| Mutaciones.MutacionComoRest | app/GraphQL/Mutations/ActualizarEstadoDespachoMutation.php:36-66 | For a non-closing state, the mutation leaves the store the REST update leaves. |
| Mutaciones.MutacionCierraSinLiberar | app/GraphQL/Mutations/ActualizarEstadoDespachoMutation.php:36-66 | Closing through the mutation keeps the vehicle, the crew and the links as they were. |
| Mutaciones.AsignarPersonal | app/GraphQL/Mutations/AsignarPersonalMutation.php:47-72 | It fails on an unknown dispatch or member, an existing link of the pair, or a refused role. On success one link is appended and the member goes into service. |
| Mutaciones.AsignarPreservaValid | app/GraphQL/Mutations/AsignarPersonalMutation.php:47-72 | A successful assignment keeps the store's key and link invariants. |
| Mutaciones.DesasignarPersonal | app/GraphQL/Mutations/DesasignarPersonalMutation.php:37-52 | It fails exactly for an unknown dispatch or an unlinked pair. Otherwise it removes just that one link and changes nothing else, crew status included. |
| Mutaciones.DesasignarQuitaElVinculo | app/GraphQL/Mutations/DesasignarPersonalMutation.php:37-52 | After unassigning, no link of the pair remains, and the invariants hold. |
| Mutaciones.AsignarYDesasignar | app/GraphQL/Mutations/DesasignarPersonalMutation.php:37-52 | Assigning and then unassigning restores the link table, but the member stays in service. |
| Mutaciones.CambiarEstadoPersonal | app/GraphQL/Mutations/CambiarEstadoPersonalMutation.php:36-48 | An unknown member fails first, then a status outside the four. On success only that member's status changes, to the one given, from any status. |
| Mutaciones.CambiarEstadoPersonalSinEvento | app/GraphQL/Mutations/CambiarEstadoPersonalMutation.php:36-48 | The mutation equals the model's status change minus the status event. |
| Mutaciones.CrearPersonal | app/GraphQL/Mutations/CrearPersonalMutation.php:61-85 | It fails with a duplicate exactly when the id card exists. On success it appends an available member with a fresh key, experience 0 unless given, and the creation event. |
| Mutaciones.CrearPersonalPreservaValid | app/GraphQL/Mutations/CrearPersonalMutation.php:61-85 | The new member keeps the invariants, is found by its key, and is listed by the available scope and its role scope. |
| Mutaciones.Aplicar | app/GraphQL/Mutations/ActualizarPersonalMutation.php:56-87 | Each field given is replaced, each field left out is kept, and the key, id card, role and status never change. |
| Mutaciones.ActualizarPersonal | app/GraphQL/Mutations/ActualizarPersonalMutation.php:56-87 | It fails exactly for an unknown member. Otherwise only that row changes, by applying the sent fields, and no event is raised. |
| Mutaciones.ActualizarPersonalIdempotente | app/GraphQL/Mutations/ActualizarPersonalMutation.php:56-87 | Applying the same update twice is applying it once, and the invariants hold. |
| Mutaciones.ConFeedback | app/GraphQL/Mutations/AgregarFeedbackDespachoMutation.php:68-77 | The feedback goes under `feedback`, replacing an earlier one, and every other key of the extra data keeps its value. |
| Mutaciones.AgregarFeedbackTalCual | app/GraphQL/Mutations/AgregarFeedbackDespachoMutation.php:64-86 | As written: after the save, the call fails on an undefined key exactly when the comment or the patient outcome was left out of the request. An argument sent as null is answered as null. |
| Mutaciones.FeedbackSinComentarioFallaTrasGuardar | app/GraphQL/Mutations/AgregarFeedbackDespachoMutation.php:64-86 | As written: feedback whose comment was left out is reported as an error. The store is then exactly as after the same call with the comment sent as null, and that call succeeds. |
| Mutaciones.AgregarFeedback | app/GraphQL/Mutations/AgregarFeedbackDespachoMutation.php:64-86 | Corrected: the call fails only for an unknown dispatch, and answers with exactly the values it stored, null for a comment or outcome that was left out or sent as null. |
| Mutaciones.FeedbackCorregidoGuardaLoMismo | app/GraphQL/Mutations/AgregarFeedbackDespachoMutation.php:64-86 | The corrected call stores exactly what the call as written stores, and gives the same answer wherever the call as written succeeds. |
| Mutaciones.FeedbackUltimoGana | app/GraphQL/Mutations/AgregarFeedbackDespachoMutation.php:68-77 | A second feedback leaves the extra data exactly as if it had been the only one. |
| Consultas.Ventana | app/GraphQL/Queries/EstadisticasDespachosQuery.php:84-87 | The window holds every dispatch created at or after its start, as often as in the table, and nothing else. |
| Consultas.EstadosParticionan | app/GraphQL/Queries/EstadisticasDespachosQuery.php:89-94 | The per-state counts of the seven states add up to the number of rows. |
| Consultas.PrioridadesParticionan | app/GraphQL/Queries/EstadisticasDespachosQuery.php:96-100 | The per-priority counts add up to the number of rows. |
| Consultas.Tasa | app/GraphQL/Queries/EstadisticasDespachosQuery.php:102 | The rate is 0 without dispatches. Otherwise it is within half a cent of the exact percentage, lies in [0, 100], and is 100 when all are completed. |
| Consultas.TasaEjemplos | app/GraphQL/Queries/EstadisticasDespachosQuery.php:102 | 7 completed of 10 gives 70, and none completed gives 0. |
| Consultas.Estadisticas | app/GraphQL/Queries/EstadisticasDespachosQuery.php:82-117 | The total is the number of dispatches created in the last `horas` hours, 24 when the argument is left out or null. Each of the five reported state counts and four priority counts is the number of those dispatches in that class, and the rate is the completion rate of completed over total. The priority counts add up to the total and the five state counts to at most the total. The rate lies in [0, 100]: 0 for an empty window and 100 when all are completed. |
| Consultas.PorEstadoComoConsulta | app/GraphQL/Queries/EstadisticasDespachosQuery.php:87-94 | A state count of the window equals the count of one query that tests both the creation time and the state, as the cloned query builder runs it. |
| Consultas.PorPrioridadComoConsulta | app/GraphQL/Queries/EstadisticasDespachosQuery.php:87-100 | A priority count of the window equals the count of one query that tests both the creation time and the priority. |
| Consultas.EstadisticasOmitenAsignadosYTraslados | app/GraphQL/Queries/EstadisticasDespachosQuery.php:89-94 | The five reported states miss exactly the `asignado` and `trasladando` dispatches of the window. |
| Consultas.EstadisticasMonotonas | app/GraphQL/Queries/EstadisticasDespachosQuery.php:84-89 | A longer look-back never lowers the total. |
| Consultas.EstadisticasIgnoranAntiguos | app/GraphQL/Queries/EstadisticasDespachosQuery.php:84-87 | A dispatch created before the window changes none of the figures. |
| Consultas.Recientes | app/GraphQL/Queries/DespachosRecientesQuery.php:38-50 | Only dispatches of the window (24 hours unless given) are listed, newest first, each at most as often as in the window, with min(limit, window) rows (limit 50 unless given). No left-out window row is newer than a listed one. |
| Consultas.RecientesSinVentana | app/GraphQL/Queries/DespachosRecientesQuery.php:38-50 | Without dispatches in the window the list is empty. |
| Consultas.ListarDespachos | app/GraphQL/Queries/DespachosQuery.php:45-68 | Only rows passing every given filter are listed, newest first, each at most as often as in the table. A non-negative limit (50 when left out) yields exactly min(limit, matches) rows. With a null or negative limit, which the query ignores, every matching row is listed as often as in the table. No left-out match is newer than a listed row. |
| Consultas.Coincidentes | app/GraphQL/Queries/PersonalesQuery.php:52-66 | The crew rows that pass every given filter appear as often as in the table, and nothing else does, ordered by first name. |
| Consultas.PaginaEsConsulta | app/GraphQL/Queries/PersonalesQuery.php:68-70 | A page cut as a stretch of the ordered rows is what the query builder returns for `offset` then `limit`. |
| Consultas.PaginaPartida | app/GraphQL/Queries/PersonalesQuery.php:68-70 | Two consecutive offset/limit pages together are the page spanning both. |
| Consultas.ListarPersonal | app/GraphQL/Queries/PersonalesQuery.php:50-71 | The page holds at most `limit` members, 50 when no limit is given. It holds exactly `limit` members when that many match beyond the offset, and otherwise every match after the offset. A negative limit is ignored. |
| Consultas.ListarPersonalCoincide | app/GraphQL/Queries/PersonalesQuery.php:50-71 | The page holds only matching members, ordered by first name. It is the stretch of the full ordered match list that starts after skipping `offset` members, and it is `limit` long, or shorter only where the match list ends. |
| Consultas.PaginasConsecutivas | app/GraphQL/Queries/PersonalesQuery.php:50-71 | Reading the crew listing page after page gives the same members as one larger page. |
| Consultas.PersonalFiltrosExcluyentes | app/GraphQL/Queries/PersonalesQuery.php:58-64 | Asking for available crew with another status lists nobody. |
| Consultas.PersonalRolDesconocido | app/GraphQL/Queries/PersonalesQuery.php:54-56 | A role name outside the enum lists nobody. |

## Left out

- **Haversine formula.** The formula uses floating-point trigonometry. It is
  a parameter of the model, and all float arithmetic is done exactly on
  reals.
- **DMS formatting.** `formatearUbicacion` is float-to-string output.
- **Predictor network calls.** The remote prediction, training, evaluation,
  health, statistics and re-training calls are network I/O. Their outcome is
  a parameter (`Ml.Remoto`).
- **Cache time-to-live.** The cache's time-to-live is not modelled.
- **Transactions, locks and concurrency.** A transaction is modelled only as
  its all-or-nothing result. Events inside a rolled-back transaction are
  dropped with it. Whether a queued broadcast can outlive a rollback depends
  on the queue driver.
- **Event payloads and listeners.** Broadcast payloads, listeners, jobs and
  the Redis publisher are fan-out to other services. The event log records
  only which event was raised.
- **Pagination of the REST listings.** The `index` endpoints return the full
  ordered match list. Page slicing is presentation.
- Consultas.ListarPersonal: a negative `limit` is modelled as no limit with
  the offset still applied. The query builder then emits OFFSET without
  LIMIT, which MySQL and SQLite reject. The database's answer is not
  modelled.
- **Text collation.** Strings are compared by code point. The database's
  collation is not modelled: it orders text differently and makes `where`
  equality case-insensitive. The model's exact comparison applies to the tier
  filter, the `ci` uniqueness test of crew creation (`CiExiste`), and the
  status and role filters.
- **Column limits.** Decimal column rounding and the string column lengths
  are not modelled. This includes the 20-character limit on `ci`. Of the
  integer columns, only the sign of the unsigned `solicitud_id` is modelled.
- **Other middleware and behaviour.** Soft deletes, the empty-string-to-null
  middleware, and the auto-increment gaps of keys are not modelled. A new key
  is the largest existing key plus one.
- **GraphQL plumbing.** The single-record lookup queries, `AmbulanciasQuery`,
  the type classes, the schema text and the entity resolver are plain
  projections or lookups.
- **GPS mutation.** `RegistrarUbicacionGPSMutation` writes attributes that
  are not mass-assignable, so its effect is framework-defined.
- **Availability statistics.** `obtenerEstadisticasDisponibilidad` is
  group-by counting.
- **Request parsing.** A required numeric argument that is absent, null or
  not numeric arrives as `None`. An optional one arrives as a
  `ControladorDespachos.Campo`, which separates "not numeric" from "absent or
  null". The model does not say which strings PHP's `is_numeric` accepts.
  Non-string values in the optional text fields are not modelled.
- **Enum spellings.** Status and role strings that no column accepts are
  modelled as the write being refused (`ValorInvalido`). The database's
  strict-mode behaviour is not modelled further.
- Mutaciones.AgregarFeedback: the answer's `registrado_at` is the same
  instant as the stored one. The source reads the clock twice.
- Ml.PredecirTiempoLlegada: one clock reading, `hora`, gives both the
  hour and weekday features and the fallback's hour. `MlService.php` reads
  the clock once for the features (line 197) and again for the fallback
  (line 229), so the two can differ at an hour boundary.
- Consultas.Estadisticas: the completion rate uses exact division before
  rounding. PHP's float division can differ in the last bits.

## Findings

| source | as written | input that shows it | evidently intended | confidence | as-written member | corrected member |
|---|---|---|---|---|---|---|
| app/GraphQL/Mutations/AgregarFeedbackDespachoMutation.php:79-84 | The answer reads `$args['comentario']` and `$args['resultado_paciente']` without a default, after the feedback has already been saved. | Feedback for an existing dispatch with `calificacion` 5, with `comentario` left out of the request (not sent as null). | Answer with null for a missing comment or outcome, as the stored object at lines 72-73 does. | not executed | Mutaciones.AgregarFeedbackTalCual, Mutaciones.FeedbackSinComentarioFallaTrasGuardar | Mutaciones.AgregarFeedback |
