/** The rows of the dispatch database and the store that holds them.

    Every table is a sequence of rows in primary-key order (the order in which
    rows were inserted), so "the first N matching rows" of an unordered query
    is a prefix of the matching rows in table order. Timestamps are whole
    minutes. Broadcast events raised by the models are appended to an event
    log kept in the store, so an operation that rolls back drops its events
    together with its writes. */
module Records {
  import opened Wrappers
  import opened Enums

  datatype Ambulancia = Ambulancia(
    id: nat,
    placa: string,
    modelo: string,
    tipo: TipoAmbulancia,
    estado: EstadoAmbulancia,
    lat: Option<real>,
    lng: Option<real>,
    ultimaActualizacion: Option<int>)

  datatype Personal = Personal(
    id: nat,
    nombre: string,
    apellido: string,
    ci: string,
    rol: Rol,
    especialidad: Option<string>,
    experiencia: int,
    estado: EstadoPersonal,
    telefono: Option<string>,
    email: Option<string>)

  /** A JSON value, as stored in the `datos_adicionales` column. */
  datatype Json =
    | JNull
    | JBool(b: bool)
    | JInt(i: int)
    | JReal(x: real)
    | JStr(s: string)
    | JObj(campos: map<string, Json>)

  datatype Despacho = Despacho(
    id: nat,
    solicitudId: Option<nat>,
    ambulanciaId: nat,
    fechaSolicitud: int,
    fechaAsignacion: Option<int>,
    fechaLlegada: Option<int>,
    fechaFinalizacion: Option<int>,
    origenLat: real,
    origenLng: real,
    direccionOrigen: Option<string>,
    destinoLat: Option<real>,
    destinoLng: Option<real>,
    direccionDestino: Option<string>,
    distanciaKm: Option<real>,
    tiempoEstimadoMin: Option<int>,
    tiempoRealMin: Option<int>,
    estado: EstadoDespacho,
    incidente: Incidente,
    decision: Decision,
    prioridad: Prioridad,
    observaciones: Option<string>,
    datosAdicionales: Option<map<string, Json>>,
    creadoEn: int)

  /** A crew-to-dispatch link (`asignacion_personal`). */
  datatype Asignacion = Asignacion(despachoId: nat, personalId: nat, rolAsignado: Rol, esResponsable: bool)

  /** A GPS tracking sample (`historial_rastreo`). */
  datatype Rastreo = Rastreo(
    despachoId: nat,
    latitud: real,
    longitud: real,
    velocidad: Option<real>,
    altitud: Option<real>,
    precision: Option<real>,
    timestampGps: int)

  /** The events the models and services raise. */
  datatype Evento =
    | DespachoCreado(despachoId: nat)
    | DespachoEstadoCambiado(despachoId: nat, anterior: EstadoDespacho, nuevo: EstadoDespacho)
    | DespachoFinalizado(despachoId: nat, resultado: EstadoDespacho)
    | AmbulanciaUbicacionActualizada(ambulanciaId: nat)
    | PersonalEstadoCambiado(personalId: nat, anteriorP: EstadoPersonal, nuevoP: EstadoPersonal)
    | PersonalCreado(personalId: nat)

  datatype Db = Db(
    ambulancias: seq<Ambulancia>,
    personal: seq<Personal>,
    despachos: seq<Despacho>,
    asignaciones: seq<Asignacion>,
    rastreos: seq<Rastreo>,
    eventos: seq<Evento>)

  /** Why a call fails: a missing row, a value outside an `enum` column, a
      duplicate key of a unique index (or a duplicate the caller checks for
      itself), or a read of a request key that was not sent. */
  datatype Falla = NoEncontrado | ValorInvalido | Duplicado | ClaveIndefinida

  // ---------------------------------------------------------------------------
  // Integrity

  /** The database's own guarantees: unique primary keys, unique `ci`, and the
      unique (dispatch, crew) pair of the link table. */
  ghost predicate Valid(db: Db) {
    && (forall i, j :: 0 <= i < j < |db.ambulancias| ==> db.ambulancias[i].id != db.ambulancias[j].id)
    && (forall i, j :: 0 <= i < j < |db.personal| ==> db.personal[i].id != db.personal[j].id)
    && (forall i, j :: 0 <= i < j < |db.personal| ==> db.personal[i].ci != db.personal[j].ci)
    && (forall i, j :: 0 <= i < j < |db.despachos| ==> db.despachos[i].id != db.despachos[j].id)
    && (forall i, j :: 0 <= i < j < |db.asignaciones| ==>
          (db.asignaciones[i].despachoId, db.asignaciones[i].personalId)
          != (db.asignaciones[j].despachoId, db.asignaciones[j].personalId))
  }

  /** The foreign key of the link table: every link names an existing dispatch. */
  ghost predicate VinculosConDespacho(db: Db) {
    forall j :: 0 <= j < |db.asignaciones| ==>
      exists i :: 0 <= i < |db.despachos| && db.despachos[i].id == db.asignaciones[j].despachoId
  }

  // ---------------------------------------------------------------------------
  // Lookups by primary key

  function BuscarAmbulancia(s: seq<Ambulancia>, id: nat): (r: Option<nat>)
    ensures r.Some? ==> r.value < |s| && s[r.value].id == id
    ensures r.Some? ==> forall j :: 0 <= j < r.value ==> s[j].id != id
    ensures r.None? <==> forall j :: 0 <= j < |s| ==> s[j].id != id
    decreases |s|
  {
    if |s| == 0 then None
    else if s[0].id == id then Some(0)
    else match BuscarAmbulancia(s[1..], id)
      case None => None
      case Some(k) => Some(k + 1)
  }

  function BuscarPersonal(s: seq<Personal>, id: nat): (r: Option<nat>)
    ensures r.Some? ==> r.value < |s| && s[r.value].id == id
    ensures r.Some? ==> forall j :: 0 <= j < r.value ==> s[j].id != id
    ensures r.None? <==> forall j :: 0 <= j < |s| ==> s[j].id != id
    decreases |s|
  {
    if |s| == 0 then None
    else if s[0].id == id then Some(0)
    else match BuscarPersonal(s[1..], id)
      case None => None
      case Some(k) => Some(k + 1)
  }

  function BuscarDespacho(s: seq<Despacho>, id: nat): (r: Option<nat>)
    ensures r.Some? ==> r.value < |s| && s[r.value].id == id
    ensures r.Some? ==> forall j :: 0 <= j < r.value ==> s[j].id != id
    ensures r.None? <==> forall j :: 0 <= j < |s| ==> s[j].id != id
    decreases |s|
  {
    if |s| == 0 then None
    else if s[0].id == id then Some(0)
    else match BuscarDespacho(s[1..], id)
      case None => None
      case Some(k) => Some(k + 1)
  }

  /** The lookup depends only on the keys of the rows. */
  lemma {:induction false} BuscarAmbulanciaMismasClaves(s: seq<Ambulancia>, t: seq<Ambulancia>, id: nat)
    requires |s| == |t| && forall j :: 0 <= j < |s| ==> s[j].id == t[j].id
    ensures BuscarAmbulancia(s, id) == BuscarAmbulancia(t, id)
    decreases |s|
  {
    if |s| > 0 {
      assert forall j :: 0 <= j < |s[1..]| ==> s[1..][j].id == t[1..][j].id by {
        forall j | 0 <= j < |s[1..]| ensures s[1..][j].id == t[1..][j].id {
          assert s[j + 1].id == t[j + 1].id;
        }
      }
      BuscarAmbulanciaMismasClaves(s[1..], t[1..], id);
    }
  }

  lemma {:induction false} BuscarDespachoMismasClaves(s: seq<Despacho>, t: seq<Despacho>, id: nat)
    requires |s| == |t| && forall j :: 0 <= j < |s| ==> s[j].id == t[j].id
    ensures BuscarDespacho(s, id) == BuscarDespacho(t, id)
    decreases |s|
  {
    if |s| > 0 {
      assert forall j :: 0 <= j < |s[1..]| ==> s[1..][j].id == t[1..][j].id by {
        forall j | 0 <= j < |s[1..]| ensures s[1..][j].id == t[1..][j].id {
          assert s[j + 1].id == t[j + 1].id;
        }
      }
      BuscarDespachoMismasClaves(s[1..], t[1..], id);
    }
  }

  lemma {:induction false} BuscarPersonalMismasClaves(s: seq<Personal>, t: seq<Personal>, id: nat)
    requires |s| == |t| && forall j :: 0 <= j < |s| ==> s[j].id == t[j].id
    ensures BuscarPersonal(s, id) == BuscarPersonal(t, id)
    decreases |s|
  {
    if |s| > 0 {
      assert forall j :: 0 <= j < |s[1..]| ==> s[1..][j].id == t[1..][j].id by {
        forall j | 0 <= j < |s[1..]| ensures s[1..][j].id == t[1..][j].id {
          assert s[j + 1].id == t[j + 1].id;
        }
      }
      BuscarPersonalMismasClaves(s[1..], t[1..], id);
    }
  }

  /** Position of the link of `despachoId` and `personalId`, if there is one. */
  function BuscarVinculo(s: seq<Asignacion>, despachoId: nat, personalId: nat): (r: Option<nat>)
    ensures r.Some? ==> r.value < |s| && s[r.value].despachoId == despachoId && s[r.value].personalId == personalId
    ensures r.None? <==> forall j :: 0 <= j < |s| ==> !(s[j].despachoId == despachoId && s[j].personalId == personalId)
    decreases |s|
  {
    if |s| == 0 then None
    else if s[0].despachoId == despachoId && s[0].personalId == personalId then Some(0)
    else match BuscarVinculo(s[1..], despachoId, personalId)
      case None => None
      case Some(k) => Some(k + 1)
  }

  /** The link rows of one dispatch, in insertion order. */
  function VinculosDe(s: seq<Asignacion>, despachoId: nat): (r: seq<Asignacion>)
    ensures |r| <= |s|
    ensures forall i :: 0 <= i < |r| ==> r[i] in s && r[i].despachoId == despachoId
    ensures forall i :: 0 <= i < |s| && s[i].despachoId == despachoId ==> s[i] in r
    decreases |s|
  {
    if |s| == 0 then []
    else if s[0].despachoId == despachoId then [s[0]] + VinculosDe(s[1..], despachoId)
    else VinculosDe(s[1..], despachoId)
  }

  // ---------------------------------------------------------------------------
  // Auto-increment keys

  function MaxIdDespacho(s: seq<Despacho>): (m: nat)
    ensures forall i :: 0 <= i < |s| ==> s[i].id <= m
    decreases |s|
  {
    if |s| == 0 then 0
    else var m := MaxIdDespacho(s[1..]); if s[0].id > m then s[0].id else m
  }

  /** The key the next inserted dispatch receives: above every existing key. */
  function NuevoIdDespacho(s: seq<Despacho>): (id: nat)
    ensures id > 0
    ensures forall i :: 0 <= i < |s| ==> s[i].id != id
  {
    MaxIdDespacho(s) + 1
  }

  function MaxIdPersonal(s: seq<Personal>): (m: nat)
    ensures forall i :: 0 <= i < |s| ==> s[i].id <= m
    decreases |s|
  {
    if |s| == 0 then 0
    else var m := MaxIdPersonal(s[1..]); if s[0].id > m then s[0].id else m
  }

  function NuevoIdPersonal(s: seq<Personal>): (id: nat)
    ensures id > 0
    ensures forall i :: 0 <= i < |s| ==> s[i].id != id
  {
    MaxIdPersonal(s) + 1
  }
}
