/** The life cycle of a dispatch in the assignment service: `crearDespacho`
    picks the nearest vehicle, records the dispatch, takes the vehicle into
    service and reserves the crew, all in one transaction; `finalizarDespacho`
    closes the dispatch and releases the vehicle and the crew. */
module CicloDespacho {
  import opened Wrappers
  import opened Enums
  import opened Records
  import Gps
  import Ambulancias
  import AsignacionAmbulancia
  import AsignacionPersonal
  import Despachos

  /** The request of `crearDespacho`; `None` marks a key that is absent. */
  datatype DatosDespacho = DatosDespacho(
    solicitudId: Option<int>,
    origenLat: real,
    origenLng: real,
    direccionOrigen: Option<string>,
    destinoLat: Option<real>,
    destinoLng: Option<real>,
    direccionDestino: Option<string>,
    tipoAmbulancia: Option<string>,
    incidente: Option<string>,
    prioridad: Option<string>,
    observaciones: Option<string>,
    datosAdicionales: Option<map<string, Json>>,
    rolesRequeridos: Option<seq<(string, int)>>)

  function Origen(datos: DatosDespacho): Gps.Coord {
    Gps.Coord(datos.origenLat, datos.origenLng)
  }

  /** The vehicle the creation would pick: the nearest qualifying one within
      the default radius. */
  function Vehiculo(h: Gps.Haversine, db: Db, datos: DatosDespacho): Option<Gps.ConDistancia<Ambulancia>> {
    AsignacionAmbulancia.EncontrarAmbulanciaMasCercana(
      h, db, Origen(datos), datos.tipoAmbulancia, AsignacionAmbulancia.RadioMaximoPorDefecto)
  }

  /** The incident and priority columns accept the requested values (the
      defaults `emergencia_medica` and `media` when absent). */
  function Clasificacion(datos: DatosDespacho): (r: Option<(Incidente, Prioridad)>)
    ensures r.Some? <==> (ParseIncidente(datos.incidente.GetOr("emergencia_medica")).Some?
                          && ParsePrioridad(datos.prioridad.GetOr("media")).Some?)
    ensures r.Some? ==> (r.value.0.Name() == datos.incidente.GetOr("emergencia_medica")
                         && r.value.1.Name() == datos.prioridad.GetOr("media"))
  {
    match (ParseIncidente(datos.incidente.GetOr("emergencia_medica")), ParsePrioridad(datos.prioridad.GetOr("media")))
    case (Some(i), Some(p)) => Some((i, p))
    case _ => None
  }

  /** The unsigned `solicitud_id` column takes the requested id: it is
      absent or not negative. A negative id makes the strict-mode insert
      throw. */
  predicate SolicitudAceptada(datos: DatosDespacho) {
    datos.solicitudId.None? || datos.solicitudId.value >= 0
  }

  /** The row `Despacho::create` inserts for a vehicle at `distanciaKm`. */
  function NuevaFila(db: Db, datos: DatosDespacho, v: Ambulancia, distanciaKm: real,
                     incidente: Incidente, prioridad: Prioridad, ahora: int): (d: Despacho)
    requires SolicitudAceptada(datos)
    ensures d.id !in set i | 0 <= i < |db.despachos| :: db.despachos[i].id
    ensures d.solicitudId == datos.solicitudId
    ensures d.estado == Asignado && d.fechaSolicitud == ahora && d.fechaAsignacion == Some(ahora)
    ensures d.ambulanciaId == v.id && d.distanciaKm == Some(distanciaKm)
    ensures d.tiempoEstimadoMin == Some(Gps.EstimarTiempoViaje(distanciaKm, Gps.VelocidadCiudad))
  {
    Despacho(
      NuevoIdDespacho(db.despachos), if datos.solicitudId.Some? then Some(datos.solicitudId.value as nat) else None, v.id, ahora, Some(ahora), None, None,
      datos.origenLat, datos.origenLng, datos.direccionOrigen,
      datos.destinoLat, datos.destinoLng, datos.direccionDestino,
      Some(distanciaKm), Some(Gps.EstimarTiempoViaje(distanciaKm, Gps.VelocidadCiudad)), None,
      Asignado, incidente, DecisionPendiente, prioridad,
      datos.observaciones, datos.datosAdicionales, ahora)
  }

  /** The roles asked for, or one driver and one paramedic. */
  function Roles(datos: DatosDespacho): seq<(string, int)> {
    datos.rolesRequeridos.GetOr(AsignacionPersonal.RolesPorDefecto)
  }

  /** `crearDespacho` at time `ahora`. `Success(None)` is the `null` result
      (no vehicle, or no crew); `Failure` is an exception the call rethrows:
      the insert refused by a column (an incident or priority outside its
      enum, a negative request id) or a duplicate crew link. In both cases
      the transaction is rolled back. */
  function CrearDespacho(h: Gps.Haversine, db: Db, datos: DatosDespacho, ahora: int)
    : (r: (Result<Option<Despacho>, Falla>, Db))
    ensures r.0.Failure? || r.0.value.None? ==> r.1 == db
    ensures r.0.Failure? ==> r.0.error in {ValorInvalido, Duplicado}
    ensures r.0.Success? && r.0.value.Some? ==>
      && Vehiculo(h, db, datos).Some?
      && var d := r.0.value.value;
      && d.ambulanciaId == Vehiculo(h, db, datos).value.punto.id
      && d.distanciaKm == Some(Vehiculo(h, db, datos).value.distanciaKm)
      && d.estado == Asignado && d.fechaAsignacion == Some(ahora)
      && Clasificacion(datos) == Some((d.incidente, d.prioridad))
      && SolicitudAceptada(datos) && d.solicitudId == datos.solicitudId
      && d.origenLat == datos.origenLat && d.origenLng == datos.origenLng
      && r.1.despachos == db.despachos + [d]
      && |r.1.eventos| > 0 && r.1.eventos[|r.1.eventos| - 1] == DespachoCreado(d.id)
  {
    match Vehiculo(h, db, datos)
    case None => (Success(None), db)
    case Some(c) =>
      match Clasificacion(datos)
      case None => (Failure(ValorInvalido), db)
      case Some((incidente, prioridad)) =>
        if !SolicitudAceptada(datos) then (Failure(ValorInvalido), db)
        else
          var d := NuevaFila(db, datos, c.punto, c.distanciaKm, incidente, prioridad, ahora);
          var k := BuscarAmbulancia(db.ambulancias, c.punto.id).value;
          var db1 := db.(despachos := db.despachos + [d]);
          var db2 := Ambulancias.ConFila(db1, k, Ambulancias.MarcarEnServicio(db1.ambulancias[k]));
          match AsignacionPersonal.AsignarPersonal(db2, d.id, Roles(datos))
          case (Failure(e), _) => (Failure(e), db)
          case (Success(l), db3) =>
            if |l| == 0 then (Success(None), db)
            else (Success(Some(d)), db3.(eventos := db3.eventos + [DespachoCreado(d.id)]))
  }

  /** The row `finalizarDespacho` saves: the actual time is recomputed when
      the dispatch was assigned (and becomes null without an arrival), the
      status is the result and the closing time is now. */
  function FilaFinal(d: Despacho, estado: EstadoDespacho, ahora: int): (r: Despacho)
    ensures r.estado == estado && r.fechaFinalizacion == Some(ahora)
    ensures d.fechaAsignacion.Some? ==> r.tiempoRealMin == Despachos.CalcularTiempoReal(d)
    ensures d.fechaAsignacion.None? ==> r.tiempoRealMin == d.tiempoRealMin
    ensures r.(estado := d.estado, fechaFinalizacion := d.fechaFinalizacion, tiempoRealMin := d.tiempoRealMin) == d
  {
    var d1 := if d.fechaAsignacion.Some? then d.(tiempoRealMin := Despachos.CalcularTiempoReal(d)) else d;
    d1.(estado := estado, fechaFinalizacion := Some(ahora))
  }

  /** Releases the vehicle of a dispatch when its row exists. */
  function LiberarAmbulancia(db: Db, ambulanciaId: nat): (r: Db)
    ensures |r.ambulancias| == |db.ambulancias|
    ensures forall j :: 0 <= j < |db.ambulancias| ==>
      r.ambulancias[j] == if BuscarAmbulancia(db.ambulancias, ambulanciaId) == Some(j)
                          then db.ambulancias[j].(estado := Disponible) else db.ambulancias[j]
    ensures r.(ambulancias := db.ambulancias) == db
  {
    match BuscarAmbulancia(db.ambulancias, ambulanciaId)
    case None => db
    case Some(k) => Ambulancias.ConFila(db, k, Ambulancias.MarcarDisponible(db.ambulancias[k]))
  }

  /** `finalizarDespacho` on the dispatch in row `i`. A result the status
      column does not accept makes the save throw; the call rolls back and
      answers false. Otherwise the row is closed, the vehicle made available,
      the crew released, and the closing event raised. */
  function FinalizarDespacho(db: Db, i: nat, resultado: string, ahora: int): (r: (bool, Db))
    requires i < |db.despachos|
    ensures !r.0 <==> ParseEstadoDespacho(resultado).None?
    ensures !r.0 ==> r.1 == db
    ensures r.0 ==>
      && |r.1.despachos| == |db.despachos|
      && r.1.despachos[i] == FilaFinal(db.despachos[i], ParseEstadoDespacho(resultado).value, ahora)
      && (forall j :: 0 <= j < |db.despachos| && j != i ==> r.1.despachos[j] == db.despachos[j])
      && (forall j :: 0 <= j < |r.1.asignaciones| ==> r.1.asignaciones[j].despachoId != db.despachos[i].id)
      && (forall l :: l in r.1.asignaciones <==> l in db.asignaciones && l.despachoId != db.despachos[i].id)
      && |r.1.eventos| > 0
      && r.1.eventos[|r.1.eventos| - 1] == DespachoFinalizado(db.despachos[i].id, ParseEstadoDespacho(resultado).value)
      && r.1.rastreos == db.rastreos
  {
    match ParseEstadoDespacho(resultado)
    case None => (false, db)
    case Some(e) =>
      var d := db.despachos[i];
      var db1 := Despachos.ConFila(db, i, FilaFinal(d, e, ahora));
      var db2 := LiberarAmbulancia(db1, d.ambulanciaId);
      var db3 := AsignacionPersonal.LiberarPersonal(db2, d.id);
      (true, db3.(eventos := db3.eventos + [DespachoFinalizado(d.id, e)]))
  }

  /** A fresh dispatch key has no links when every link names an existing dispatch. */
  lemma NuevoSinVinculos(db: Db)
    requires VinculosConDespacho(db)
    ensures AsignacionPersonal.SinVinculos(db, NuevoIdDespacho(db.despachos))
  {
    forall j | 0 <= j < |db.asignaciones| ensures db.asignaciones[j].despachoId != NuevoIdDespacho(db.despachos) {
      var i :| 0 <= i < |db.despachos| && db.despachos[i].id == db.asignaciones[j].despachoId;
    }
  }

  /** The store `crearDespacho` hands to `asignarPersonal`: the new row added
      and the vehicle taken into service. */
  lemma AntesDelPersonal(h: Gps.Haversine, db: Db, datos: DatosDespacho, ahora: int)
    requires Vehiculo(h, db, datos).Some? && Clasificacion(datos).Some?
    ensures var c := Vehiculo(h, db, datos).value;
      BuscarAmbulancia(db.ambulancias, c.punto.id).Some?
  {
    var c := Vehiculo(h, db, datos).value;
    var j :| 0 <= j < |db.ambulancias| && db.ambulancias[j] == c.punto;
  }

  /** With unique crew keys, links that name existing dispatches, and
      distinct role names, `crearDespacho` never fails on a duplicate link:
      it fails only on an incident, a priority or a request id the columns
      refuse, and only once a vehicle has been found; it returns
      null exactly when no vehicle qualifies or the crew plan is short or
      empty, and otherwise links the planned crew to the new dispatch and
      puts them in service. */
  lemma CrearDespachoSegunPlan(h: Gps.Haversine, db: Db, datos: DatosDespacho, ahora: int)
    requires AsignacionPersonal.IdsUnicos(db.personal) && VinculosConDespacho(db)
    requires AsignacionPersonal.ClavesDistintas(AsignacionPersonal.RolesEfectivos(Roles(datos)))
    ensures var r := CrearDespacho(h, db, datos, ahora);
      var roles := AsignacionPersonal.RolesEfectivos(Roles(datos));
      var plan := AsignacionPersonal.Plan(db.personal, roles);
      && (r.0.Failure? <==>
            Vehiculo(h, db, datos).Some? && (Clasificacion(datos).None? || !SolicitudAceptada(datos)))
      && (r.0.Failure? ==> r.0.error == ValorInvalido)
      && (r.0.Success? && r.0.value.Some? <==>
            && Vehiculo(h, db, datos).Some? && Clasificacion(datos).Some? && SolicitudAceptada(datos)
            && !AsignacionPersonal.AlgunCorto(db.personal, roles) && |plan| > 0)
      && (r.0.Success? && r.0.value.Some? ==>
            && r.1.asignaciones == db.asignaciones + AsignacionPersonal.VinculosPara(r.0.value.value.id, plan)
            && |r.1.personal| == |db.personal|
            && (forall k: nat :: k < |db.personal| ==>
                  r.1.personal[k] == if AsignacionPersonal.EnPlan(db.personal, roles, k)
                                     then db.personal[k].(estado := PEnServicio) else db.personal[k]))
  {
    var r := CrearDespacho(h, db, datos, ahora);
    if Vehiculo(h, db, datos).Some? && Clasificacion(datos).Some? && SolicitudAceptada(datos) {
      AntesDelPersonal(h, db, datos, ahora);
      var c := Vehiculo(h, db, datos).value;
      var (incidente, prioridad) := Clasificacion(datos).value;
      var d := NuevaFila(db, datos, c.punto, c.distanciaKm, incidente, prioridad, ahora);
      var k := BuscarAmbulancia(db.ambulancias, c.punto.id).value;
      var db1 := db.(despachos := db.despachos + [d]);
      var db2 := Ambulancias.ConFila(db1, k, Ambulancias.MarcarEnServicio(db1.ambulancias[k]));
      NuevoSinVinculos(db);
      var roles := AsignacionPersonal.RolesEfectivos(Roles(datos));
      AsignacionPersonal.SinVinculosPlanLibre(db2, d.id, roles);
      AsignacionPersonal.AsignarPersonalSegunPlan(db2, d.id, Roles(datos));
      assert db2.personal == db.personal && db2.asignaciones == db.asignaciones;
    }
  }

  /** The tables `finalizarDespacho` writes: the closed row, the released
      vehicle and the released crew. */
  lemma FinalizarTablas(db: Db, i: nat, resultado: string, fin: int)
    requires i < |db.despachos| && ParseEstadoDespacho(resultado).Some?
    ensures var f := FinalizarDespacho(db, i, resultado, fin);
      var d := db.despachos[i];
      && f.1.despachos == db.despachos[i := FilaFinal(d, ParseEstadoDespacho(resultado).value, fin)]
      && f.1.ambulancias == LiberarAmbulancia(db, d.ambulanciaId).ambulancias
      && f.1.personal == AsignacionPersonal.LiberarPersonal(db, d.id).personal
      && f.1.asignaciones == AsignacionPersonal.LiberarPersonal(db, d.id).asignaciones
  {
    var d := db.despachos[i];
    var e := ParseEstadoDespacho(resultado).value;
    var x1 := Despachos.ConFila(db, i, FilaFinal(d, e, fin));
    var x2 := LiberarAmbulancia(x1, d.ambulanciaId);
    AsignacionPersonal.LiberarPersonalSoloTablas(x2, db, d.id);
  }

  /** The store right after a successful creation: the new row appended,
      the chosen vehicle (available until then) in service, and the crew
      tables as the reservation left them. */
  lemma TrasCrear(h: Gps.Haversine, db: Db, datos: DatosDespacho, ahora: int)
    requires CrearDespacho(h, db, datos, ahora).0.Success? && CrearDespacho(h, db, datos, ahora).0.value.Some?
    ensures var r := CrearDespacho(h, db, datos, ahora);
      var d := r.0.value.value;
      && d.id == NuevoIdDespacho(db.despachos)
      && BuscarAmbulancia(db.ambulancias, d.ambulanciaId).Some?
      && var k := BuscarAmbulancia(db.ambulancias, d.ambulanciaId).value;
      && (Valid(db) ==> db.ambulancias[k].estado == Disponible)
      && var db2 := db.(despachos := db.despachos + [d],
                        ambulancias := db.ambulancias[k := db.ambulancias[k].(estado := EnServicio)]);
      var db3 := AsignacionPersonal.AsignarPersonal(db2, d.id, Roles(datos)).1;
      && r.1.personal == db3.personal && r.1.asignaciones == db3.asignaciones
      && r.1.ambulancias == db2.ambulancias && r.1.despachos == db2.despachos
  {
    AntesDelPersonal(h, db, datos, ahora);
    var c := Vehiculo(h, db, datos).value;
    var (incidente, prioridad) := Clasificacion(datos).value;
    var d := NuevaFila(db, datos, c.punto, c.distanciaKm, incidente, prioridad, ahora);
    var k := BuscarAmbulancia(db.ambulancias, c.punto.id).value;
    var db1 := db.(despachos := db.despachos + [d]);
    var db2 := Ambulancias.ConFila(db1, k, Ambulancias.MarcarEnServicio(db1.ambulancias[k]));
    var db3 := AsignacionPersonal.AsignarPersonal(db2, d.id, Roles(datos)).1;
    assert CrearDespacho(h, db, datos, ahora) == (Success(Some(d)), db3.(eventos := db3.eventos + [DespachoCreado(d.id)]));
    if Valid(db) {
      var j :| 0 <= j < |db.ambulancias| && db.ambulancias[j] == c.punto;
      assert j == k;
    }
  }

  /** Closing the dispatch a creation just recorded restores the vehicle,
      crew and link tables of the store before the creation. */
  lemma CierreRestaura(db: Db, r1: Db, d: Despacho, k: nat, roles: seq<(string, int)>, resultado: string, fin: int)
    requires Valid(db) && VinculosConDespacho(db)
    requires AsignacionPersonal.ClavesDistintas(AsignacionPersonal.RolesEfectivos(roles))
    requires k < |db.ambulancias| && db.ambulancias[k].estado == Disponible
    requires BuscarAmbulancia(db.ambulancias, d.ambulanciaId) == Some(k)
    requires d.id == NuevoIdDespacho(db.despachos)
    requires var db2 := db.(despachos := db.despachos + [d],
                            ambulancias := db.ambulancias[k := db.ambulancias[k].(estado := EnServicio)]);
      var db3 := AsignacionPersonal.AsignarPersonal(db2, d.id, roles).1;
      && r1.personal == db3.personal && r1.asignaciones == db3.asignaciones
      && r1.ambulancias == db2.ambulancias && r1.despachos == db2.despachos
    requires ParseEstadoDespacho(resultado).Some?
    ensures var f := FinalizarDespacho(r1, |db.despachos|, resultado, fin);
      && f.0
      && f.1.ambulancias == db.ambulancias
      && f.1.personal == db.personal
      && f.1.asignaciones == db.asignaciones
      && f.1.despachos == db.despachos + [FilaFinal(d, ParseEstadoDespacho(resultado).value, fin)]
  {
    var n, e := |db.despachos|, ParseEstadoDespacho(resultado).value;
    assert r1.despachos[n] == d;
    FinalizarTablas(r1, n, resultado, fin);
    CierreRestauraPersonal(db, r1, d, k, roles);
    CierreRestauraAmbulancias(db, r1, d, k);
    assert r1.despachos[n := FilaFinal(d, e, fin)] == db.despachos + [FilaFinal(d, e, fin)];
  }

  /** The crew release of the closing undoes the crew reservation of the creation. */
  lemma CierreRestauraPersonal(db: Db, r1: Db, d: Despacho, k: nat, roles: seq<(string, int)>)
    requires Valid(db) && VinculosConDespacho(db)
    requires AsignacionPersonal.ClavesDistintas(AsignacionPersonal.RolesEfectivos(roles))
    requires k < |db.ambulancias|
    requires d.id == NuevoIdDespacho(db.despachos)
    requires var db2 := db.(despachos := db.despachos + [d],
                            ambulancias := db.ambulancias[k := db.ambulancias[k].(estado := EnServicio)]);
      var db3 := AsignacionPersonal.AsignarPersonal(db2, d.id, roles).1;
      r1.personal == db3.personal && r1.asignaciones == db3.asignaciones
    ensures var l := AsignacionPersonal.LiberarPersonal(r1, d.id);
      l.personal == db.personal && l.asignaciones == db.asignaciones
  {
    var db2 := db.(despachos := db.despachos + [d],
                   ambulancias := db.ambulancias[k := db.ambulancias[k].(estado := EnServicio)]);
    var db3 := AsignacionPersonal.AsignarPersonal(db2, d.id, roles).1;
    NuevoSinVinculos(db);
    AsignacionPersonal.ReservarYLiberar(db2, d.id, roles);
    AsignacionPersonal.LiberarPersonalSoloTablas(r1, db3, d.id);
  }

  /** Releasing the vehicle the creation took into service gives back the
      vehicle table of the store before the creation. */
  lemma CierreRestauraAmbulancias(db: Db, r1: Db, d: Despacho, k: nat)
    requires k < |db.ambulancias| && db.ambulancias[k].estado == Disponible
    requires BuscarAmbulancia(db.ambulancias, d.ambulanciaId) == Some(k)
    requires r1.ambulancias == db.ambulancias[k := db.ambulancias[k].(estado := EnServicio)]
    ensures LiberarAmbulancia(r1, d.ambulanciaId).ambulancias == db.ambulancias
  {
    BuscarAmbulanciaMismasClaves(db.ambulancias, r1.ambulancias, d.ambulanciaId);
    var a := LiberarAmbulancia(r1, d.ambulanciaId).ambulancias;
    forall j | 0 <= j < |db.ambulancias| ensures a[j] == db.ambulancias[j] {
      if j == k {
        assert a[j] == db.ambulancias[k].(estado := EnServicio).(estado := Disponible);
      }
    }
  }

  /** Creating a dispatch and then closing it with any accepted result gives
      back the vehicle, crew and link tables the store had before, and
      leaves the new dispatch row closed. */
  lemma CrearYFinalizar(h: Gps.Haversine, db: Db, datos: DatosDespacho, ahora: int, resultado: string, fin: int)
    requires Valid(db) && VinculosConDespacho(db)
    requires AsignacionPersonal.ClavesDistintas(AsignacionPersonal.RolesEfectivos(Roles(datos)))
    requires CrearDespacho(h, db, datos, ahora).0.Success? && CrearDespacho(h, db, datos, ahora).0.value.Some?
    requires ParseEstadoDespacho(resultado).Some?
    ensures var r := CrearDespacho(h, db, datos, ahora);
      var f := FinalizarDespacho(r.1, |db.despachos|, resultado, fin);
      && f.0
      && f.1.ambulancias == db.ambulancias
      && f.1.personal == db.personal
      && f.1.asignaciones == db.asignaciones
      && f.1.despachos == db.despachos + [FilaFinal(r.0.value.value, ParseEstadoDespacho(resultado).value, fin)]
  {
    var r := CrearDespacho(h, db, datos, ahora);
    var d := r.0.value.value;
    TrasCrear(h, db, datos, ahora);
    var k := BuscarAmbulancia(db.ambulancias, d.ambulanciaId).value;
    CierreRestaura(db, r.1, d, k, Roles(datos), resultado, fin);
  }
}
