/** The vehicle endpoints of the REST API: the filtered listing ordered by
    plate, the location update and the status update. A request parameter
    that is absent (or not a number where one is required) is `None`. */
module ControladorAmbulancias {
  import opened Wrappers
  import opened Enums
  import opened Records
  import opened Seqs
  import Gps
  import Http
  import Ambulancias
  import AsignacionAmbulancia

  // ---------------------------------------------------------------------------
  // Listing

  /** The query string of the listing: `estado` and `tipo_ambulancia` when
      present, and the `disponibles` flag. */
  datatype Filtros = Filtros(estado: Option<string>, tipo: Option<string>, disponibles: bool)

  /** A vehicle passes every filter that is present. */
  predicate Coincide(f: Filtros, a: Ambulancia) {
    && (f.estado.Some? ==> a.estado.Name() == f.estado.value)
    && (f.tipo.Some? ==> a.tipo.Name() == f.tipo.value)
    && (f.disponibles ==> a.estado == Disponible)
  }

  /** `orderBy('placa')`: plates in code-point order. */
  function PorPlaca(): ((Ambulancia, Ambulancia) -> bool) {
    (a: Ambulancia, b: Ambulancia) => LexLe(a.placa, b.placa)
  }

  lemma PorPlacaPreorden()
    ensures Total(PorPlaca()) && Transitive(PorPlaca())
  {
    forall a: Ambulancia, b: Ambulancia ensures PorPlaca()(a, b) || PorPlaca()(b, a) {
      LexLeTotal(a.placa, b.placa);
    }
    forall a: Ambulancia, b: Ambulancia, c: Ambulancia | PorPlaca()(a, b) && PorPlaca()(b, c)
      ensures PorPlaca()(a, c)
    {
      LexLeTransitive(a.placa, b.placa, c.placa);
    }
  }

  /** `index`: the three `where` clauses applied one after the other, then
      the rows ordered by plate. Every row that passes all filters appears as
      often as in the table, and no other row appears. */
  function Index(db: Db, f: Filtros): (r: seq<Ambulancia>)
    ensures SortedBy(PorPlaca(), r)
    ensures forall a :: multiset(r)[a] == if Coincide(f, a) then multiset(db.ambulancias)[a] else 0
  {
    var porEstado := (a: Ambulancia) => f.estado.Some? ==> a.estado.Name() == f.estado.value;
    var porTipo := (a: Ambulancia) => f.tipo.Some? ==> a.tipo.Name() == f.tipo.value;
    var s1 := if f.estado.Some? then Filter(porEstado, db.ambulancias) else db.ambulancias;
    var s2 := if f.tipo.Some? then Filter(porTipo, s1) else s1;
    var s3 := if f.disponibles then Ambulancias.ScopeDisponibles(s2) else s2;
    assert forall a :: multiset(s3)[a] == if Coincide(f, a) then multiset(db.ambulancias)[a] else 0 by {
      forall a ensures multiset(s3)[a] == if Coincide(f, a) then multiset(db.ambulancias)[a] else 0 {
        if f.estado.Some? { FilterMultiset(porEstado, db.ambulancias, a); }
        if f.tipo.Some? { FilterMultiset(porTipo, s1, a); }
        if f.disponibles { FilterMultiset(Ambulancias.EstaDisponible, s2, a); }
      }
    }
    PorPlacaPreorden();
    SortBy(PorPlaca(), s3)
  }

  /** Asking for one status together with `disponibles` lists nothing unless
      that status is `disponible`. */
  lemma IndexFiltrosExcluyentes(db: Db, f: Filtros)
    requires f.disponibles && f.estado.Some? && f.estado.value != Disponible.Name()
    ensures Index(db, f) == []
  {
    var r := Index(db, f);
    assert multiset(r) == multiset{};
  }

  /** Without filters the listing is a reordering of the whole table. */
  lemma IndexSinFiltros(db: Db)
    ensures multiset(Index(db, Filtros(None, None, false))) == multiset(db.ambulancias)
  {
    var r := Index(db, Filtros(None, None, false));
    assert forall a :: multiset(r)[a] == multiset(db.ambulancias)[a];
  }

  // ---------------------------------------------------------------------------
  // Location update

  /** `latitud` and `longitud` are present, numeric and within range. */
  predicate CoordenadasValidas(lat: Option<real>, lng: Option<real>) {
    lat.Some? && lng.Some? && Gps.ValidarCoordenadas(lat.value, lng.value)
  }

  /** `actualizarUbicacion` at time `ahora`: 422 for missing or out-of-range
      coordinates, 404 for an unknown vehicle, otherwise 200 with the
      position and time of the vehicle stored and the location event raised. */
  function ActualizarUbicacion(db: Db, id: nat, lat: Option<real>, lng: Option<real>, ahora: int): (r: (int, Db))
    ensures r.0 == Http.DatosInvalidos <==> !CoordenadasValidas(lat, lng)
    ensures r.0 == Http.NoEncontrado <==> CoordenadasValidas(lat, lng) && BuscarAmbulancia(db.ambulancias, id).None?
    ensures r.0 == Http.Ok <==> CoordenadasValidas(lat, lng) && BuscarAmbulancia(db.ambulancias, id).Some?
    ensures r.0 != Http.Ok ==> r.1 == db
    ensures r.0 == Http.Ok ==>
      var k := BuscarAmbulancia(db.ambulancias, id).value;
      && |r.1.ambulancias| == |db.ambulancias|
      && r.1.ambulancias[k] == db.ambulancias[k].(lat := lat, lng := lng, ultimaActualizacion := Some(ahora))
      && (forall j :: 0 <= j < |db.ambulancias| && j != k ==> r.1.ambulancias[j] == db.ambulancias[j])
      && r.1.eventos == db.eventos + [AmbulanciaUbicacionActualizada(id)]
      && r.1.(ambulancias := db.ambulancias, eventos := db.eventos) == db
  {
    if !CoordenadasValidas(lat, lng) then (Http.DatosInvalidos, db)
    else match BuscarAmbulancia(db.ambulancias, id)
      case None => (Http.NoEncontrado, db)
      case Some(k) => (Http.Ok, Ambulancias.ActualizarUbicacion(db, k, lat.value, lng.value, ahora))
  }

  /** After a location update the vehicle sits at the reported position, and it
      is a candidate of the nearest-vehicle search exactly when it is available. */
  lemma UbicacionHaceCandidata(db: Db, id: nat, lat: real, lng: real, ahora: int)
    requires ActualizarUbicacion(db, id, Some(lat), Some(lng), ahora).0 == Http.Ok
    ensures var r := ActualizarUbicacion(db, id, Some(lat), Some(lng), ahora).1;
      var k := BuscarAmbulancia(db.ambulancias, id).value;
      && BuscarAmbulancia(r.ambulancias, id) == Some(k)
      && AsignacionAmbulancia.Posicion(r.ambulancias[k]) == Gps.Coord(lat, lng)
      && (AsignacionAmbulancia.Candidata(r.ambulancias[k], None) <==> db.ambulancias[k].estado == Disponible)
  {
    var r := ActualizarUbicacion(db, id, Some(lat), Some(lng), ahora).1;
    BuscarAmbulanciaMismasClaves(db.ambulancias, r.ambulancias, id);
  }

  /** Two location updates of the same vehicle leave the position and time of
      the second one: the last report wins. */
  lemma UltimaUbicacionGana(db: Db, id: nat, lat1: real, lng1: real, t1: int, lat2: real, lng2: real, t2: int)
    requires ActualizarUbicacion(db, id, Some(lat1), Some(lng1), t1).0 == Http.Ok
    requires Gps.ValidarCoordenadas(lat2, lng2)
    ensures var r1 := ActualizarUbicacion(db, id, Some(lat1), Some(lng1), t1).1;
      var r2 := ActualizarUbicacion(r1, id, Some(lat2), Some(lng2), t2);
      && r2.0 == Http.Ok
      && r2.1.ambulancias == ActualizarUbicacion(db, id, Some(lat2), Some(lng2), t2).1.ambulancias
  {
    var r1 := ActualizarUbicacion(db, id, Some(lat1), Some(lng1), t1).1;
    BuscarAmbulanciaMismasClaves(db.ambulancias, r1.ambulancias, id);
  }

  // ---------------------------------------------------------------------------
  // Status update

  /** `actualizarEstado`: 422 unless `estado` is one of the four vehicle
      states, 404 for an unknown vehicle, otherwise 200 with that status
      stored whatever the previous one was. No event is raised. */
  function ActualizarEstado(db: Db, id: nat, estado: Option<string>): (r: (int, Db))
    ensures r.0 == Http.DatosInvalidos <==> estado.None? || ParseEstadoAmbulancia(estado.value).None?
    ensures r.0 == Http.NoEncontrado <==>
      estado.Some? && ParseEstadoAmbulancia(estado.value).Some? && BuscarAmbulancia(db.ambulancias, id).None?
    ensures r.0 in {Http.Ok, Http.NoEncontrado, Http.DatosInvalidos}
    ensures r.0 != Http.Ok ==> r.1 == db
    ensures r.0 == Http.Ok ==>
      var k := BuscarAmbulancia(db.ambulancias, id).value;
      && |r.1.ambulancias| == |db.ambulancias|
      && r.1.ambulancias[k].estado.Name() == estado.value
      && r.1.ambulancias[k].(estado := db.ambulancias[k].estado) == db.ambulancias[k]
      && (forall j :: 0 <= j < |db.ambulancias| && j != k ==> r.1.ambulancias[j] == db.ambulancias[j])
      && r.1.(ambulancias := db.ambulancias) == db
  {
    if estado.None? then (Http.DatosInvalidos, db)
    else match ParseEstadoAmbulancia(estado.value)
      case None => (Http.DatosInvalidos, db)
      case Some(e) =>
        match BuscarAmbulancia(db.ambulancias, id)
        case None => (Http.NoEncontrado, db)
        case Some(k) => (Http.Ok, Ambulancias.ConFila(db, k, db.ambulancias[k].(estado := e)))
  }

  /** There is no transition table: from any status an existing vehicle can
      be moved to any of the four states. */
  lemma CualquierEstadoAlcanzable(db: Db, id: nat, e: EstadoAmbulancia)
    requires BuscarAmbulancia(db.ambulancias, id).Some?
    ensures var r := ActualizarEstado(db, id, Some(e.Name()));
      r.0 == Http.Ok && r.1.ambulancias[BuscarAmbulancia(db.ambulancias, id).value].estado == e
  {
    ParseNameRoundTrip();
  }

  /** Setting a new status and then the previous one back restores the store. */
  lemma EstadoIdaYVuelta(db: Db, id: nat, nuevo: EstadoAmbulancia)
    requires BuscarAmbulancia(db.ambulancias, id).Some?
    ensures var k := BuscarAmbulancia(db.ambulancias, id).value;
      var r1 := ActualizarEstado(db, id, Some(nuevo.Name())).1;
      ActualizarEstado(r1, id, Some(db.ambulancias[k].estado.Name())) == (Http.Ok, db)
  {
    ParseNameRoundTrip();
    var k := BuscarAmbulancia(db.ambulancias, id).value;
    var r1 := ActualizarEstado(db, id, Some(nuevo.Name())).1;
    BuscarAmbulanciaMismasClaves(db.ambulancias, r1.ambulancias, id);
    assert r1.ambulancias[k := db.ambulancias[k]] == db.ambulancias;
  }
}
