/** The dispatch endpoints of the REST API: the filtered listing, newest
    first; the creation request, validated and handed to the assignment
    service; the status update with its timestamps and, on the two closing
    states, the release of the vehicle and the crew; and the tracking report.
    A required numeric parameter that is absent, null or not a number is
    `None`; an optional numeric one is a `Campo`, which keeps "not a number"
    apart from "absent or null" because the rules refuse the former. */
module ControladorDespachos {
  import opened Wrappers
  import opened Enums
  import opened Records
  import opened Seqs
  import Gps
  import Http
  import Ambulancias
  import AsignacionPersonal
  import Despachos
  import CicloDespacho
  import ControladorAmbulancias

  /** An optional numeric field of a request body (`nullable|numeric`,
      `nullable|integer`): left out or null, a value of the field's type, or
      anything else, which the rule refuses. */
  datatype Campo<T> = Vacio | Numero(v: T) | NoNumerico {
    /** What the service and the stored row receive: the number, or null. */
    function Valor(): (r: Option<T>)
      ensures r.Some? <==> Numero?
      ensures r.Some? ==> r.value == v
    {
      if Numero? then Some(v) else None
    }
  }

  // ---------------------------------------------------------------------------
  // Listing

  /** The query string of the listing: `estado` and `prioridad` when present,
      and the `activos` flag. */
  datatype Filtros = Filtros(estado: Option<string>, prioridad: Option<string>, activos: bool)

  /** A dispatch passes every filter that is present. */
  predicate Coincide(f: Filtros, d: Despacho) {
    && (f.estado.Some? ==> d.estado.Name() == f.estado.value)
    && (f.prioridad.Some? ==> d.prioridad.Name() == f.prioridad.value)
    && (f.activos ==> Despachos.EstaActivo(d))
  }

  /** `orderBy('created_at', 'desc')`. */
  function MasReciente(): ((Despacho, Despacho) -> bool) {
    (a: Despacho, b: Despacho) => a.creadoEn >= b.creadoEn
  }

  lemma MasRecientePreorden()
    ensures Total(MasReciente()) && Transitive(MasReciente())
  {
  }

  /** `index`: the `where` clauses applied one after the other, then the rows
      newest first. Every row that passes all filters appears as often as in
      the table, and no other row appears. */
  function Index(db: Db, f: Filtros): (r: seq<Despacho>)
    ensures SortedBy(MasReciente(), r)
    ensures forall d :: multiset(r)[d] == if Coincide(f, d) then multiset(db.despachos)[d] else 0
  {
    var porEstado := (d: Despacho) => f.estado.Some? ==> d.estado.Name() == f.estado.value;
    var porPrioridad := (d: Despacho) => f.prioridad.Some? ==> d.prioridad.Name() == f.prioridad.value;
    var s1 := if f.estado.Some? then Filter(porEstado, db.despachos) else db.despachos;
    var s2 := if f.prioridad.Some? then Filter(porPrioridad, s1) else s1;
    var s3 := if f.activos then Despachos.ScopeActivos(s2) else s2;
    assert forall d :: multiset(s3)[d] == if Coincide(f, d) then multiset(db.despachos)[d] else 0 by {
      forall d ensures multiset(s3)[d] == if Coincide(f, d) then multiset(db.despachos)[d] else 0 {
        if f.estado.Some? { FilterMultiset(porEstado, db.despachos, d); }
        if f.prioridad.Some? { FilterMultiset(porPrioridad, s1, d); }
        if f.activos { FilterMultiset(Despachos.EstaActivo, s2, d); }
      }
    }
    MasRecientePreorden();
    SortBy(MasReciente(), s3)
  }

  /** The first row listed matches the filters and no matching row was
      created later. */
  lemma IndexEmpiezaPorMasReciente(db: Db, f: Filtros)
    requires |Index(db, f)| > 0
    ensures Index(db, f)[0] in db.despachos && Coincide(f, Index(db, f)[0])
    ensures forall d :: d in db.despachos && Coincide(f, d) ==> d.creadoEn <= Index(db, f)[0].creadoEn
  {
    var r := Index(db, f);
    MasRecientePreorden();
    SortedHeadIsLeast(MasReciente(), r, r);
    assert multiset(r)[r[0]] > 0;
    forall d | d in db.despachos && Coincide(f, d) ensures d.creadoEn <= r[0].creadoEn {
      assert multiset(r)[d] > 0;
    }
  }

  // ---------------------------------------------------------------------------
  // Creation

  /** The body of the creation request. */
  datatype Peticion = Peticion(
    solicitudId: Campo<int>,
    origenLat: Option<real>,
    origenLng: Option<real>,
    direccionOrigen: Option<string>,
    destinoLat: Campo<real>,
    destinoLng: Campo<real>,
    direccionDestino: Option<string>,
    incidente: Option<string>,
    prioridad: Option<string>,
    tipoAmbulancia: Option<string>,
    observaciones: Option<string>,
    datosAdicionales: Option<map<string, Json>>,
    rolesRequeridos: Option<seq<(string, int)>>)

  /** `max:255` of the address fields. */
  const LongitudMaxima: int := 255

  /** The validation rules of `store`. */
  predicate PeticionValida(p: Peticion) {
    && p.origenLat.Some? && p.origenLng.Some?
    && Gps.ValidarCoordenadas(p.origenLat.value, p.origenLng.value)
    && !p.solicitudId.NoNumerico?
    && !p.destinoLat.NoNumerico? && !p.destinoLng.NoNumerico?
    && (p.destinoLat.Numero? ==> -90.0 <= p.destinoLat.v <= 90.0)
    && (p.destinoLng.Numero? ==> -180.0 <= p.destinoLng.v <= 180.0)
    && (p.direccionOrigen.Some? ==> |p.direccionOrigen.value| <= LongitudMaxima)
    && (p.direccionDestino.Some? ==> |p.direccionDestino.value| <= LongitudMaxima)
    && (p.incidente.Some? ==> ParseIncidente(p.incidente.value).Some?)
    && (p.prioridad.Some? ==> ParsePrioridad(p.prioridad.value).Some?)
    && (p.tipoAmbulancia.Some? ==> ParseTipoAmbulancia(p.tipoAmbulancia.value).Some?)
  }

  /** The whole request as the service receives it. */
  function Datos(p: Peticion): (datos: CicloDespacho.DatosDespacho)
    requires p.origenLat.Some? && p.origenLng.Some?
  {
    CicloDespacho.DatosDespacho(
      p.solicitudId.Valor(), p.origenLat.value, p.origenLng.value, p.direccionOrigen,
      p.destinoLat.Valor(), p.destinoLng.Valor(), p.direccionDestino, p.tipoAmbulancia,
      p.incidente, p.prioridad, p.observaciones, p.datosAdicionales, p.rolesRequeridos)
  }

  /** `store` at time `ahora`: 422 for a request the rules refuse, without
      calling the service; 500 when the service throws; 503 when it finds no
      vehicle or no crew; 201 with the new dispatch otherwise. Only 201
      changes the store. */
  function Store(h: Gps.Haversine, db: Db, p: Peticion, ahora: int): (r: (int, Db))
    ensures r.0 in {Http.Creado, Http.DatosInvalidos, Http.ErrorInterno, Http.SinRecursos}
    ensures r.0 == Http.DatosInvalidos <==> !PeticionValida(p)
    ensures p.solicitudId.NoNumerico? || p.destinoLat.NoNumerico? || p.destinoLng.NoNumerico? ==>
      r.0 == Http.DatosInvalidos
    ensures r.0 != Http.Creado ==> r.1 == db
    ensures r.0 == Http.Creado ==>
      && |r.1.despachos| == |db.despachos| + 1
      && r.1.despachos[..|db.despachos|] == db.despachos
      && var d := r.1.despachos[|db.despachos|];
      && d.estado == Asignado && d.fechaAsignacion == Some(ahora)
      && d.origenLat == p.origenLat.value && d.origenLng == p.origenLng.value
      && d.solicitudId == p.solicitudId.Valor()
      && d.incidente.Name() == p.incidente.GetOr("emergencia_medica")
      && d.prioridad.Name() == p.prioridad.GetOr("media")
      && d.id !in set j | 0 <= j < |db.despachos| :: db.despachos[j].id
  {
    if !PeticionValida(p) then (Http.DatosInvalidos, db)
    else
      var c := CicloDespacho.CrearDespacho(h, db, Datos(p), ahora);
      match c.0
      case Failure(_) => (Http.ErrorInterno, db)
      case Success(None) => (Http.SinRecursos, db)
      case Success(Some(d)) =>
        StoreCreado(h, db, p, ahora);
        (Http.Creado, c.1)
  }

  /** The row a successful `store` appends, in terms of the request. */
  lemma StoreCreado(h: Gps.Haversine, db: Db, p: Peticion, ahora: int)
    requires PeticionValida(p)
    requires var c := CicloDespacho.CrearDespacho(h, db, Datos(p), ahora); c.0.Success? && c.0.value.Some?
    ensures var c := CicloDespacho.CrearDespacho(h, db, Datos(p), ahora);
      && |c.1.despachos| == |db.despachos| + 1
      && c.1.despachos[..|db.despachos|] == db.despachos
      && var d := c.1.despachos[|db.despachos|];
      && d.estado == Asignado && d.fechaAsignacion == Some(ahora)
      && d.origenLat == p.origenLat.value && d.origenLng == p.origenLng.value
      && d.solicitudId == p.solicitudId.Valor()
      && d.incidente.Name() == p.incidente.GetOr("emergencia_medica")
      && d.prioridad.Name() == p.prioridad.GetOr("media")
      && d.id !in set j | 0 <= j < |db.despachos| :: db.despachos[j].id
  {
    var c := CicloDespacho.CrearDespacho(h, db, Datos(p), ahora);
    var d := c.0.value.value;
    assert c.1.despachos[|db.despachos|] == d;
    assert c.1.despachos[..|db.despachos|] == db.despachos;
  }

  /** `nullable|integer` lets a negative request id through, but the
      unsigned column refuses it. */
  predicate SolicitudNegativa(p: Peticion) {
    p.solicitudId.Numero? && p.solicitudId.v < 0
  }

  /** On a consistent store (unique crew keys, links naming existing
      dispatches, and the distinct role keys a PHP array always has), a
      request that passes validation ends in 500 exactly when a vehicle is
      found and the request id is negative, so that the insert throws. It is
      503 exactly when no vehicle qualifies, or the id is accepted and the
      crew quotas cannot be met or ask for nobody, and 201 otherwise. */
  lemma ValidadaFallaSoloPorSolicitud(h: Gps.Haversine, db: Db, p: Peticion, ahora: int)
    requires PeticionValida(p)
    requires AsignacionPersonal.IdsUnicos(db.personal) && VinculosConDespacho(db)
    requires AsignacionPersonal.ClavesDistintas(AsignacionPersonal.RolesEfectivos(CicloDespacho.Roles(Datos(p))))
    ensures var r := Store(h, db, p, ahora);
      var roles := AsignacionPersonal.RolesEfectivos(CicloDespacho.Roles(Datos(p)));
      && (r.0 == Http.ErrorInterno <==> CicloDespacho.Vehiculo(h, db, Datos(p)).Some? && SolicitudNegativa(p))
      && (r.0 == Http.SinRecursos <==>
            || CicloDespacho.Vehiculo(h, db, Datos(p)).None?
            || (&& !SolicitudNegativa(p)
                && (AsignacionPersonal.AlgunCorto(db.personal, roles)
                    || |AsignacionPersonal.Plan(db.personal, roles)| == 0)))
  {
    CicloDespacho.CrearDespachoSegunPlan(h, db, Datos(p), ahora);
    assert CicloDespacho.Clasificacion(Datos(p)).Some?;
  }

  // ---------------------------------------------------------------------------
  // Status update

  /** The closing states, on which `update` calls `finalizarDespacho`. */
  predicate Terminal(e: EstadoDespacho) {
    e == Completado || e == Cancelado
  }

  /** The timestamps `update` stamps on the row after the status change:
      the one the new status calls for, and only when it is still null. */
  function Sellar(d: Despacho, e: EstadoDespacho, ahora: int): (r: Despacho)
    ensures e == EnCamino ==> r.fechaAsignacion == Some(d.fechaAsignacion.GetOr(ahora))
    ensures e == EnSitio ==> r.fechaLlegada == Some(d.fechaLlegada.GetOr(ahora))
    ensures Terminal(e) ==> r.fechaFinalizacion == Some(d.fechaFinalizacion.GetOr(ahora))
    ensures e != EnCamino ==> r.fechaAsignacion == d.fechaAsignacion
    ensures e != EnSitio ==> r.fechaLlegada == d.fechaLlegada
    ensures !Terminal(e) ==> r.fechaFinalizacion == d.fechaFinalizacion
    ensures r.(fechaAsignacion := d.fechaAsignacion, fechaLlegada := d.fechaLlegada,
               fechaFinalizacion := d.fechaFinalizacion) == d
  {
    match e
    case EnCamino => if d.fechaAsignacion.None? then d.(fechaAsignacion := Some(ahora)) else d
    case EnSitio => if d.fechaLlegada.None? then d.(fechaLlegada := Some(ahora)) else d
    case Completado => if d.fechaFinalizacion.None? then d.(fechaFinalizacion := Some(ahora)) else d
    case Cancelado => if d.fechaFinalizacion.None? then d.(fechaFinalizacion := Some(ahora)) else d
    case _ => d
  }

  /** The successful part of `update` on row `i`: the status change (with
      its event) and the stamps; a closing state then runs the service's
      closing, which sets the closing time to now, releases the vehicle and
      unlinks the crew. */
  function Transicion(db: Db, i: nat, e: EstadoDespacho, nombre: string, ahora: int): (r: Db)
    requires i < |db.despachos| && ParseEstadoDespacho(nombre) == Some(e)
    ensures
      var d := db.despachos[i];
      && |r.despachos| == |db.despachos|
      && (forall j :: 0 <= j < |db.despachos| && j != i ==> r.despachos[j] == db.despachos[j])
      && r.despachos[i].id == d.id && r.despachos[i].estado == e
      && r.rastreos == db.rastreos
      && |r.eventos| > |db.eventos|
      && r.eventos[|db.eventos|] == DespachoEstadoCambiado(d.id, d.estado, e)
      && (e == EnCamino ==> r.despachos[i] == d.(estado := e, fechaAsignacion := Some(d.fechaAsignacion.GetOr(ahora))))
      && (e == EnSitio ==> r.despachos[i] == d.(estado := e, fechaLlegada := Some(d.fechaLlegada.GetOr(ahora))))
      && (!Terminal(e) && e != EnCamino && e != EnSitio ==> r.despachos[i] == d.(estado := e))
      && (!Terminal(e) ==>
            && r.ambulancias == db.ambulancias && r.personal == db.personal
            && r.asignaciones == db.asignaciones)
      && (Terminal(e) ==>
            && r.despachos[i].fechaFinalizacion == Some(ahora)
            && r.despachos[i].fechaLlegada == d.fechaLlegada
            && r.despachos[i].fechaAsignacion == d.fechaAsignacion
            && r.despachos[i] == CicloDespacho.FilaFinal(d, e, ahora)
            && r.eventos[|r.eventos| - 1] == DespachoFinalizado(d.id, e)
            && (forall j :: 0 <= j < |r.asignaciones| ==> r.asignaciones[j].despachoId != d.id)
            && (forall l :: l in db.asignaciones && l.despachoId != d.id ==> l in r.asignaciones))
  {
    var db1 := Despachos.CambiarEstado(db, i, e);
    var db2 := Despachos.ConFila(db1, i, Sellar(db1.despachos[i], e, ahora));
    if Terminal(e) then
      SelladoAntesDelCierre(db.despachos[i], e, ahora);
      CicloDespacho.FinalizarDespacho(db2, i, nombre, ahora).1
    else db2
  }

  /** The stamps `update` sets before the service's closing leave no trace in
      the closed row: it is the closing of the row as it was. */
  lemma SelladoAntesDelCierre(d: Despacho, e: EstadoDespacho, ahora: int)
    requires Terminal(e)
    ensures CicloDespacho.FilaFinal(Sellar(d.(estado := e), e, ahora), e, ahora) == CicloDespacho.FilaFinal(d, e, ahora)
  {
  }

  /** `update` at time `ahora`: 422 unless `estado` is one of the seven
      dispatch states, 404 for an unknown dispatch, otherwise 200 after the
      transition above. */
  function Update(db: Db, id: nat, estado: Option<string>, ahora: int): (r: (int, Db))
    ensures r.0 in {Http.Ok, Http.NoEncontrado, Http.DatosInvalidos}
    ensures r.0 == Http.DatosInvalidos <==> estado.None? || ParseEstadoDespacho(estado.value).None?
    ensures r.0 == Http.NoEncontrado <==>
      estado.Some? && ParseEstadoDespacho(estado.value).Some? && BuscarDespacho(db.despachos, id).None?
    ensures r.0 != Http.Ok ==> r.1 == db
    ensures r.0 == Http.Ok ==>
      var i := BuscarDespacho(db.despachos, id).value;
      var e := ParseEstadoDespacho(estado.value).value;
      var d := db.despachos[i];
      && |r.1.despachos| == |db.despachos|
      && (forall j :: 0 <= j < |db.despachos| && j != i ==> r.1.despachos[j] == db.despachos[j])
      && r.1.despachos[i].id == id && r.1.despachos[i].estado == e
      && r.1.rastreos == db.rastreos
      && |r.1.eventos| > |db.eventos|
      && r.1.eventos[|db.eventos|] == DespachoEstadoCambiado(id, d.estado, e)
      && (e == EnCamino ==> r.1.despachos[i] == d.(estado := e, fechaAsignacion := Some(d.fechaAsignacion.GetOr(ahora))))
      && (e == EnSitio ==> r.1.despachos[i] == d.(estado := e, fechaLlegada := Some(d.fechaLlegada.GetOr(ahora))))
      && (!Terminal(e) && e != EnCamino && e != EnSitio ==> r.1.despachos[i] == d.(estado := e))
      && (!Terminal(e) ==>
            && r.1.ambulancias == db.ambulancias && r.1.personal == db.personal
            && r.1.asignaciones == db.asignaciones)
      && (Terminal(e) ==>
            && r.1.despachos[i].fechaFinalizacion == Some(ahora)
            && r.1.despachos[i].fechaLlegada == d.fechaLlegada
            && r.1.despachos[i].fechaAsignacion == d.fechaAsignacion
            && r.1.despachos[i] == CicloDespacho.FilaFinal(d, e, ahora)
            && r.1.eventos[|r.1.eventos| - 1] == DespachoFinalizado(id, e)
            && (forall j :: 0 <= j < |r.1.asignaciones| ==> r.1.asignaciones[j].despachoId != id)
            && (forall l :: l in db.asignaciones && l.despachoId != id ==> l in r.1.asignaciones))
  {
    if estado.None? then (Http.DatosInvalidos, db)
    else match ParseEstadoDespacho(estado.value)
      case None => (Http.DatosInvalidos, db)
      case Some(e) =>
        match BuscarDespacho(db.despachos, id)
        case None => (Http.NoEncontrado, db)
        case Some(i) => (Http.Ok, Transicion(db, i, e, estado.value, ahora))
  }

  /** A closing status releases the dispatch's vehicle and, with unique crew
      keys, makes available exactly the crew members linked to it; every
      other crew status is kept. */
  lemma CerrarLibera(db: Db, id: nat, e: EstadoDespacho, ahora: int)
    requires Terminal(e) && BuscarDespacho(db.despachos, id).Some?
    requires AsignacionPersonal.IdsUnicos(db.personal)
    ensures var r := Update(db, id, Some(e.Name()), ahora).1;
      var d := db.despachos[BuscarDespacho(db.despachos, id).value];
      && r.ambulancias == CicloDespacho.LiberarAmbulancia(db, d.ambulanciaId).ambulancias
      && |r.personal| == |db.personal|
      && forall k :: 0 <= k < |db.personal| ==>
           r.personal[k].estado ==
             if exists j :: 0 <= j < |db.asignaciones| && db.asignaciones[j].despachoId == id
                                                      && db.asignaciones[j].personalId == db.personal[k].id
             then PDisponible else db.personal[k].estado
  {
    ParseNameRoundTrip();
    var i := BuscarDespacho(db.despachos, id).value;
    var db1 := Despachos.CambiarEstado(db, i, e);
    var db2 := Despachos.ConFila(db1, i, Sellar(db1.despachos[i], e, ahora));
    CicloDespacho.FinalizarTablas(db2, i, e.Name(), ahora);
    AsignacionPersonal.LiberarPersonalSoloTablas(db2, db, id);
    AsignacionPersonal.LiberarPersonalEstados(db, id);
  }

  /** There is no transition table: an existing dispatch can be moved from
      any status to any of the seven, including out of a closing state. */
  lemma CualquierEstadoAlcanzable(db: Db, id: nat, e: EstadoDespacho, ahora: int)
    requires BuscarDespacho(db.despachos, id).Some?
    ensures var r := Update(db, id, Some(e.Name()), ahora);
      r.0 == Http.Ok && r.1.despachos[BuscarDespacho(db.despachos, id).value].estado == e
  {
    ParseNameRoundTrip();
  }

  /** The update keeps the key of the row, so the dispatch is found at the
      same position afterwards. */
  lemma UpdateMismaPosicion(db: Db, id: nat, estado: Option<string>, ahora: int)
    requires Update(db, id, estado, ahora).0 == Http.Ok
    ensures BuscarDespacho(Update(db, id, estado, ahora).1.despachos, id) == BuscarDespacho(db.despachos, id)
  {
    var i := BuscarDespacho(db.despachos, id).value;
    var e := ParseEstadoDespacho(estado.value).value;
    var r := Transicion(db, i, e, estado.value, ahora);
    assert Update(db, id, estado, ahora).1 == r;
    forall j | 0 <= j < |db.despachos| ensures db.despachos[j].id == r.despachos[j].id {
      if j != i {
        assert r.despachos[j] == db.despachos[j];
      }
    }
    BuscarDespachoMismasClaves(db.despachos, r.despachos, id);
  }

  /** Repeating `en_camino` or `en_sitio` leaves the row as the first call
      left it: the first stamp wins. */
  lemma PrimerSelloGana(db: Db, id: nat, e: EstadoDespacho, t1: int, t2: int)
    requires e == EnCamino || e == EnSitio
    requires BuscarDespacho(db.despachos, id).Some?
    ensures var r1 := Update(db, id, Some(e.Name()), t1).1;
      Update(r1, id, Some(e.Name()), t2).1.despachos == r1.despachos
  {
    ParseNameRoundTrip();
    var i := BuscarDespacho(db.despachos, id).value;
    var r1 := Transicion(db, i, e, e.Name(), t1);
    assert Update(db, id, Some(e.Name()), t1).1 == r1;
    UpdateMismaPosicion(db, id, Some(e.Name()), t1);
    var r2 := Transicion(r1, i, e, e.Name(), t2);
    assert Update(r1, id, Some(e.Name()), t2).1 == r2;
    var d1 := r1.despachos[i];
    if e == EnCamino {
      assert d1.fechaAsignacion.Some?;
    } else {
      assert d1.fechaLlegada.Some?;
    }
    assert r2.despachos[i] == d1;
    assert r2.despachos == r1.despachos;
  }

  /** On a closing state the closing time is always the time of the latest
      request, whether or not the row already had one. */
  lemma CierreSobrescribeFecha(db: Db, id: nat, e1: EstadoDespacho, e2: EstadoDespacho, t1: int, t2: int)
    requires Terminal(e1) && Terminal(e2)
    requires BuscarDespacho(db.despachos, id).Some?
    ensures var r1 := Update(db, id, Some(e1.Name()), t1).1;
      var r2 := Update(r1, id, Some(e2.Name()), t2).1;
      var i := BuscarDespacho(db.despachos, id).value;
      && r1.despachos[i].fechaFinalizacion == Some(t1)
      && r2.despachos[i].fechaFinalizacion == Some(t2)
  {
    ParseNameRoundTrip();
    UpdateMismaPosicion(db, id, Some(e1.Name()), t1);
  }

  // ---------------------------------------------------------------------------
  // Tracking

  /** The validation rules of `rastreo`. */
  predicate RastreoValido(lat: Option<real>, lng: Option<real>, velocidad: Campo<real>, altitud: Campo<real>,
                         precision: Campo<real>) {
    && ControladorAmbulancias.CoordenadasValidas(lat, lng)
    && !velocidad.NoNumerico? && !altitud.NoNumerico? && !precision.NoNumerico?
    && (velocidad.Numero? ==> velocidad.v >= 0.0)
    && (precision.Numero? ==> precision.v >= 0.0)
  }

  /** `rastreo` at time `ahora`: 422 for a report the rules refuse, 404 for an
      unknown dispatch, otherwise 201 after appending one tracking sample and
      moving the dispatch's vehicle, when its row exists, to the reported
      position. */
  function RegistrarRastreo(db: Db, id: nat, lat: Option<real>, lng: Option<real>, velocidad: Campo<real>,
                            altitud: Campo<real>, precision: Campo<real>, ahora: int): (r: (int, Db))
    ensures r.0 in {Http.Creado, Http.NoEncontrado, Http.DatosInvalidos}
    ensures r.0 == Http.DatosInvalidos <==> !RastreoValido(lat, lng, velocidad, altitud, precision)
    ensures velocidad.NoNumerico? || altitud.NoNumerico? || precision.NoNumerico? ==> r.0 == Http.DatosInvalidos
    ensures r.0 == Http.NoEncontrado <==>
      RastreoValido(lat, lng, velocidad, altitud, precision) && BuscarDespacho(db.despachos, id).None?
    ensures r.0 != Http.Creado ==> r.1 == db
    ensures r.0 == Http.Creado ==>
      && r.1.rastreos == db.rastreos + [Rastreo(id, lat.value, lng.value, velocidad.Valor(), altitud.Valor(), precision.Valor(), ahora)]
      && r.1.despachos == db.despachos && r.1.personal == db.personal && r.1.asignaciones == db.asignaciones
      && |r.1.ambulancias| == |db.ambulancias|
      && var v := db.despachos[BuscarDespacho(db.despachos, id).value].ambulanciaId;
      && (BuscarAmbulancia(db.ambulancias, v).None? ==> r.1.ambulancias == db.ambulancias)
      && (BuscarAmbulancia(db.ambulancias, v).Some? ==>
            var k := BuscarAmbulancia(db.ambulancias, v).value;
            && r.1.ambulancias[k].lat == lat && r.1.ambulancias[k].lng == lng
            && r.1.ambulancias[k].estado == db.ambulancias[k].estado
            && forall j :: 0 <= j < |db.ambulancias| && j != k ==> r.1.ambulancias[j] == db.ambulancias[j])
  {
    if !RastreoValido(lat, lng, velocidad, altitud, precision) then (Http.DatosInvalidos, db)
    else match BuscarDespacho(db.despachos, id)
      case None => (Http.NoEncontrado, db)
      case Some(i) =>
        var db1 := db.(rastreos := db.rastreos + [Rastreo(id, lat.value, lng.value, velocidad.Valor(), altitud.Valor(), precision.Valor(), ahora)]);
        match BuscarAmbulancia(db1.ambulancias, db.despachos[i].ambulanciaId)
        case None => (Http.Creado, db1)
        case Some(k) => (Http.Creado, Ambulancias.ActualizarUbicacion(db1, k, lat.value, lng.value, ahora))
  }

  /** A tracking report moves the dispatch's vehicle exactly as the vehicle's
      own location endpoint would. */
  lemma RastreoComoUbicacion(db: Db, id: nat, lat: real, lng: real, velocidad: Campo<real>,
                             altitud: Campo<real>, precision: Campo<real>, ahora: int)
    requires RegistrarRastreo(db, id, Some(lat), Some(lng), velocidad, altitud, precision, ahora).0 == Http.Creado
    requires BuscarAmbulancia(db.ambulancias, db.despachos[BuscarDespacho(db.despachos, id).value].ambulanciaId).Some?
    ensures var r := RegistrarRastreo(db, id, Some(lat), Some(lng), velocidad, altitud, precision, ahora).1;
      var v := db.despachos[BuscarDespacho(db.despachos, id).value].ambulanciaId;
      var u := ControladorAmbulancias.ActualizarUbicacion(db, v, Some(lat), Some(lng), ahora);
      && u.0 == Http.Ok
      && r.ambulancias == u.1.ambulancias
      && r.eventos == u.1.eventos
  {
  }
}
