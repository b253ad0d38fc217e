/** The GraphQL mutations on dispatches and crew. A resolver that does not
    find its row, or throws, is a `Failure` with the store unchanged (no
    write precedes the failing step); a string the resolver passes on
    unchecked to an `enum` column is refused by the column. */
module Mutaciones {
  import opened Wrappers
  import opened Enums
  import opened Records
  import opened Seqs
  import Despachos
  import Personales
  import ControladorDespachos
  import Consultas

  // ---------------------------------------------------------------------------
  // actualizarEstadoDespacho

  /** `actualizarEstadoDespacho` at time `ahora`: the status change with its
      event and the stamps of the REST update, but no closing: the vehicle and
      the crew stay as they are. A status outside the seven is refused by the
      column. */
  function ActualizarEstadoDespacho(db: Db, id: nat, estado: string, ahora: int): (r: (Result<Despacho, Falla>, Db))
    ensures r.0.Failure? <==> BuscarDespacho(db.despachos, id).None? || ParseEstadoDespacho(estado).None?
    ensures r.0.Failure? ==> r.1 == db
    ensures r.0.Failure? ==> r.0.error == if BuscarDespacho(db.despachos, id).None? then NoEncontrado else ValorInvalido
    ensures r.0.Success? ==>
      var i := BuscarDespacho(db.despachos, id).value;
      var e := ParseEstadoDespacho(estado).value;
      var d := db.despachos[i];
      var n := r.0.value;
      && n.id == id && n.estado == e
      && n.fechaAsignacion == (if e == EnCamino then Some(d.fechaAsignacion.GetOr(ahora)) else d.fechaAsignacion)
      && n.fechaLlegada == (if e == EnSitio then Some(d.fechaLlegada.GetOr(ahora)) else d.fechaLlegada)
      && n.fechaFinalizacion == (if ControladorDespachos.Terminal(e) then Some(d.fechaFinalizacion.GetOr(ahora))
                                 else d.fechaFinalizacion)
      && n.(estado := d.estado, fechaAsignacion := d.fechaAsignacion, fechaLlegada := d.fechaLlegada,
            fechaFinalizacion := d.fechaFinalizacion) == d
      && r.1 == db.(despachos := db.despachos[i := n],
                    eventos := db.eventos + [DespachoEstadoCambiado(id, d.estado, e)])
  {
    match BuscarDespacho(db.despachos, id)
    case None => (Failure(NoEncontrado), db)
    case Some(i) =>
      match ParseEstadoDespacho(estado)
      case None => (Failure(ValorInvalido), db)
      case Some(e) =>
        var db1 := Despachos.CambiarEstado(db, i, e);
        var n := ControladorDespachos.Sellar(db1.despachos[i], e, ahora);
        (Success(n), Despachos.ConFila(db1, i, n))
  }

  /** Outside the two closing states the mutation and the REST update leave
      the same store. */
  lemma MutacionComoRest(db: Db, id: nat, e: EstadoDespacho, ahora: int)
    requires BuscarDespacho(db.despachos, id).Some? && !ControladorDespachos.Terminal(e)
    ensures ActualizarEstadoDespacho(db, id, e.Name(), ahora).1 == ControladorDespachos.Update(db, id, Some(e.Name()), ahora).1
  {
    ParseNameRoundTrip();
  }

  /** On a closing state the mutation keeps a closing time already recorded
      and releases nothing, where the REST update overwrites the time and
      unlinks the crew. */
  lemma MutacionCierraSinLiberar(db: Db, id: nat, e: EstadoDespacho, ahora: int)
    requires BuscarDespacho(db.despachos, id).Some? && ControladorDespachos.Terminal(e)
    ensures var i := BuscarDespacho(db.despachos, id).value;
      var m := ActualizarEstadoDespacho(db, id, e.Name(), ahora).1;
      var u := ControladorDespachos.Update(db, id, Some(e.Name()), ahora).1;
      && m.despachos[i].fechaFinalizacion == Some(db.despachos[i].fechaFinalizacion.GetOr(ahora))
      && u.despachos[i].fechaFinalizacion == Some(ahora)
      && m.asignaciones == db.asignaciones && m.personal == db.personal && m.ambulancias == db.ambulancias
      && forall j :: 0 <= j < |u.asignaciones| ==> u.asignaciones[j].despachoId != id
  {
    ParseNameRoundTrip();
  }

  // ---------------------------------------------------------------------------
  // asignarPersonal / desasignarPersonal

  /** `asignarPersonal`: links one crew member to a dispatch with the given
      role and responsibility flag (false when absent) and puts the member in
      service. It refuses a pair already linked, but checks neither the
      member's status nor that the role matches the member's own. */
  function AsignarPersonal(db: Db, despachoId: nat, personalId: nat, rol: string, esResponsable: Option<bool>)
    : (r: (Result<Despacho, Falla>, Db))
    ensures r.0.Failure? ==> r.1 == db
    ensures r.0.Failure? && r.0.error == NoEncontrado <==>
      BuscarDespacho(db.despachos, despachoId).None? || BuscarPersonal(db.personal, personalId).None?
    ensures r.0.Failure? && r.0.error == Duplicado <==>
      && BuscarDespacho(db.despachos, despachoId).Some? && BuscarPersonal(db.personal, personalId).Some?
      && BuscarVinculo(db.asignaciones, despachoId, personalId).Some?
    ensures r.0.Failure? && r.0.error == ValorInvalido <==>
      && BuscarDespacho(db.despachos, despachoId).Some? && BuscarPersonal(db.personal, personalId).Some?
      && BuscarVinculo(db.asignaciones, despachoId, personalId).None? && ParseRol(rol).None?
    ensures r.0.Failure? ==> r.0.error != ClaveIndefinida
    ensures r.0.Success? ==>
      var k := BuscarPersonal(db.personal, personalId).value;
      && r.0.value.id == despachoId
      && r.1.asignaciones == db.asignaciones + [Asignacion(despachoId, personalId, ParseRol(rol).value, esResponsable.GetOr(false))]
      && |r.1.personal| == |db.personal|
      && r.1.personal[k] == db.personal[k].(estado := PEnServicio)
      && (forall j :: 0 <= j < |db.personal| && j != k ==> r.1.personal[j] == db.personal[j])
      && r.1.eventos == db.eventos + [PersonalEstadoCambiado(personalId, db.personal[k].estado, PEnServicio)]
      && r.1.(asignaciones := db.asignaciones, personal := db.personal, eventos := db.eventos) == db
  {
    match BuscarDespacho(db.despachos, despachoId)
    case None => (Failure(NoEncontrado), db)
    case Some(i) =>
      match BuscarPersonal(db.personal, personalId)
      case None => (Failure(NoEncontrado), db)
      case Some(k) =>
        if BuscarVinculo(db.asignaciones, despachoId, personalId).Some? then (Failure(Duplicado), db)
        else match ParseRol(rol)
          case None => (Failure(ValorInvalido), db)
          case Some(ro) =>
            var db1 := db.(asignaciones := db.asignaciones + [Asignacion(despachoId, personalId, ro, esResponsable.GetOr(false))]);
            (Success(db.despachos[i]), Personales.MarcarEnServicio(db1, k))
  }

  /** The duplicate check keeps the database's guarantees: a successful
      assignment never creates a second link for the same pair. */
  lemma AsignarPreservaValid(db: Db, despachoId: nat, personalId: nat, rol: string, esResponsable: Option<bool>)
    requires Valid(db)
    ensures Valid(AsignarPersonal(db, despachoId, personalId, rol, esResponsable).1)
  {
    var r := AsignarPersonal(db, despachoId, personalId, rol, esResponsable);
    if r.0.Success? {
      var s := r.1.asignaciones;
      var n := |db.asignaciones|;
      forall i, j | 0 <= i < j < |s|
        ensures (s[i].despachoId, s[i].personalId) != (s[j].despachoId, s[j].personalId)
      {
        if j == n {
          assert s[i] == db.asignaciones[i];
        }
      }
    }
  }

  /** `desasignarPersonal`: deletes the link of the pair; the member's status
      is left as it is. */
  function DesasignarPersonal(db: Db, despachoId: nat, personalId: nat): (r: (Result<Despacho, Falla>, Db))
    ensures r.0.Failure? <==>
      BuscarDespacho(db.despachos, despachoId).None? || BuscarVinculo(db.asignaciones, despachoId, personalId).None?
    ensures r.0.Failure? ==> r.1 == db && r.0.error == NoEncontrado
    ensures r.0.Success? ==>
      var k := BuscarVinculo(db.asignaciones, despachoId, personalId).value;
      && r.0.value.id == despachoId
      && multiset(r.1.asignaciones) + multiset{db.asignaciones[k]} == multiset(db.asignaciones)
      && r.1.asignaciones == RemoveAt(db.asignaciones, k)
      && r.1.(asignaciones := db.asignaciones) == db
  {
    match BuscarDespacho(db.despachos, despachoId)
    case None => (Failure(NoEncontrado), db)
    case Some(i) =>
      match BuscarVinculo(db.asignaciones, despachoId, personalId)
      case None => (Failure(NoEncontrado), db)
      case Some(k) =>
        RemoveAtMultiset(db.asignaciones, k);
        (Success(db.despachos[i]), db.(asignaciones := RemoveAt(db.asignaciones, k)))
  }

  /** On a valid store, after unassigning no link of the pair is left, and
      the store stays valid. */
  lemma DesasignarQuitaElVinculo(db: Db, despachoId: nat, personalId: nat)
    requires Valid(db)
    requires DesasignarPersonal(db, despachoId, personalId).0.Success?
    ensures var r := DesasignarPersonal(db, despachoId, personalId).1;
      && BuscarVinculo(r.asignaciones, despachoId, personalId).None?
      && Valid(r)
  {
    var r := DesasignarPersonal(db, despachoId, personalId).1;
    var k := BuscarVinculo(db.asignaciones, despachoId, personalId).value;
    var s := db.asignaciones;
    forall j | 0 <= j < |r.asignaciones|
      ensures !(r.asignaciones[j].despachoId == despachoId && r.asignaciones[j].personalId == personalId)
    {
      if j < k {
        assert r.asignaciones[j] == s[j];
      } else {
        assert r.asignaciones[j] == s[j + 1];
      }
    }
    forall i, j | 0 <= i < j < |r.asignaciones|
      ensures (r.asignaciones[i].despachoId, r.asignaciones[i].personalId)
           != (r.asignaciones[j].despachoId, r.asignaciones[j].personalId)
    {
      var i' := if i < k then i else i + 1;
      var j' := if j < k then j else j + 1;
      assert r.asignaciones[i] == s[i'] && r.asignaciones[j] == s[j'];
    }
  }

  /** Assigning a member and unassigning them again restores the link table,
      but the member stays in service: unassigning does not release. */
  lemma AsignarYDesasignar(db: Db, despachoId: nat, personalId: nat, rol: string, esResponsable: Option<bool>)
    requires AsignarPersonal(db, despachoId, personalId, rol, esResponsable).0.Success?
    ensures var a := AsignarPersonal(db, despachoId, personalId, rol, esResponsable).1;
      var d := DesasignarPersonal(a, despachoId, personalId);
      var k := BuscarPersonal(db.personal, personalId).value;
      && d.0.Success?
      && d.1.asignaciones == db.asignaciones
      && d.1.personal[k].estado == PEnServicio
  {
    var a := AsignarPersonal(db, despachoId, personalId, rol, esResponsable).1;
    var n := |db.asignaciones|;
    var s := a.asignaciones;
    assert s[n].despachoId == despachoId && s[n].personalId == personalId;
    assert BuscarVinculo(s, despachoId, personalId) == Some(n);
    assert RemoveAt(a.asignaciones, n) == db.asignaciones;
  }

  // ---------------------------------------------------------------------------
  // cambiarEstadoPersonal

  /** `cambiarEstadoPersonal`: checks the status against the four crew states
      and stores it, from any status; unlike the model's own status change it
      raises no event. The row is looked up before the status is checked. */
  function CambiarEstadoPersonal(db: Db, id: nat, estado: string): (r: (Result<Personal, Falla>, Db))
    ensures r.0.Failure? <==> BuscarPersonal(db.personal, id).None? || ParseEstadoPersonal(estado).None?
    ensures r.0.Failure? ==> r.1 == db
    ensures r.0.Failure? ==> r.0.error == if BuscarPersonal(db.personal, id).None? then NoEncontrado else ValorInvalido
    ensures r.0.Success? ==>
      var k := BuscarPersonal(db.personal, id).value;
      && |r.1.personal| == |db.personal|
      && r.0.value == r.1.personal[k]
      && r.0.value.estado.Name() == estado
      && r.1.personal[k].(estado := db.personal[k].estado) == db.personal[k]
      && (forall j :: 0 <= j < |db.personal| && j != k ==> r.1.personal[j] == db.personal[j])
      && r.1.(personal := db.personal) == db
  {
    match BuscarPersonal(db.personal, id)
    case None => (Failure(NoEncontrado), db)
    case Some(k) =>
      match ParseEstadoPersonal(estado)
      case None => (Failure(ValorInvalido), db)
      case Some(e) =>
        var p := db.personal[k].(estado := e);
        (Success(p), db.(personal := db.personal[k := p]))
  }

  /** The mutation writes the crew table exactly as `cambiarEstado` does, for
      every status, and differs from it only by the missing event. */
  lemma CambiarEstadoPersonalSinEvento(db: Db, id: nat, e: EstadoPersonal)
    requires BuscarPersonal(db.personal, id).Some?
    ensures var k := BuscarPersonal(db.personal, id).value;
      var r := CambiarEstadoPersonal(db, id, e.Name());
      && r.0.Success?
      && r.1 == Personales.CambiarEstado(db, k, e).(eventos := db.eventos)
  {
    ParseNameRoundTrip();
  }

  // ---------------------------------------------------------------------------
  // crearPersonal

  /** The arguments of `crearPersonal`; `None` is an optional argument that
      was not sent or was null. */
  datatype NuevoPersonal = NuevoPersonal(
    nombre: string,
    apellido: string,
    ci: string,
    rol: string,
    especialidad: Option<string>,
    experiencia: Option<int>,
    telefono: Option<string>,
    email: Option<string>)

  predicate CiExiste(s: seq<Personal>, ci: string) {
    exists j :: 0 <= j < |s| && s[j].ci == ci
  }

  /** `crearPersonal`: refuses a `ci` already registered, then inserts the
      member as available with 0 years of experience unless given, and raises
      the creation event. A role outside the four is refused by the column. */
  function CrearPersonal(db: Db, a: NuevoPersonal): (r: (Result<Personal, Falla>, Db))
    ensures r.0.Failure? ==> r.1 == db
    ensures r.0.Failure? && r.0.error == Duplicado <==> CiExiste(db.personal, a.ci)
    ensures r.0.Failure? && r.0.error == ValorInvalido <==> !CiExiste(db.personal, a.ci) && ParseRol(a.rol).None?
    ensures r.0.Failure? ==> r.0.error in {Duplicado, ValorInvalido}
    ensures r.0.Success? ==>
      var p := r.0.value;
      && r.1.personal == db.personal + [p]
      && (forall j :: 0 <= j < |db.personal| ==> db.personal[j].id != p.id)
      && p.nombre == a.nombre && p.apellido == a.apellido && p.ci == a.ci && p.rol.Name() == a.rol
      && p.especialidad == a.especialidad && p.telefono == a.telefono && p.email == a.email
      && p.experiencia == a.experiencia.GetOr(0)
      && p.estado == PDisponible
      && r.1.eventos == db.eventos + [PersonalCreado(p.id)]
      && r.1.(personal := db.personal, eventos := db.eventos) == db
  {
    if CiExiste(db.personal, a.ci) then (Failure(Duplicado), db)
    else match ParseRol(a.rol)
      case None => (Failure(ValorInvalido), db)
      case Some(ro) =>
        var p := Personal(NuevoIdPersonal(db.personal), a.nombre, a.apellido, a.ci, ro, a.especialidad,
                          a.experiencia.GetOr(0), PDisponible, a.telefono, a.email);
        (Success(p), db.(personal := db.personal + [p], eventos := db.eventos + [PersonalCreado(p.id)]))
  }

  /** Creating a member keeps keys and `ci` unique, and the new member is
      found by its key and selected by the availability and role scopes. */
  lemma CrearPersonalPreservaValid(db: Db, a: NuevoPersonal)
    requires Valid(db)
    requires CrearPersonal(db, a).0.Success?
    ensures var r := CrearPersonal(db, a);
      && Valid(r.1)
      && BuscarPersonal(r.1.personal, r.0.value.id) == Some(|db.personal|)
      && r.0.value in Personales.ScopeDisponibles(r.1.personal)
      && r.0.value in Personales.ScopePorRol(r.1.personal, a.rol)
  {
    var r := CrearPersonal(db, a);
    var s := r.1.personal;
    var n := |db.personal|;
    forall i, j | 0 <= i < j < |s| ensures s[i].id != s[j].id && s[i].ci != s[j].ci {
      if j == n {
        assert s[i] == db.personal[i];
      }
    }
    assert s[n] == r.0.value;
  }

  // ---------------------------------------------------------------------------
  // actualizarPersonal

  /** The optional arguments of `actualizarPersonal`; `None` is a field that
      was not sent or was null, and is left alone. */
  datatype CambiosPersonal = CambiosPersonal(
    nombre: Option<string>,
    apellido: Option<string>,
    especialidad: Option<string>,
    experiencia: Option<int>,
    telefono: Option<string>,
    email: Option<string>)

  /** The row with the sent fields replaced. */
  function Aplicar(p: Personal, c: CambiosPersonal): (q: Personal)
    ensures q.id == p.id && q.ci == p.ci && q.rol == p.rol && q.estado == p.estado
    ensures c == CambiosPersonal(None, None, None, None, None, None) ==> q == p
    ensures c.nombre.Some? ==> q.nombre == c.nombre.value
    ensures c.nombre.None? ==> q.nombre == p.nombre
    ensures c.apellido.Some? ==> q.apellido == c.apellido.value
    ensures c.apellido.None? ==> q.apellido == p.apellido
    ensures q.especialidad == if c.especialidad.Some? then c.especialidad else p.especialidad
    ensures q.experiencia == c.experiencia.GetOr(p.experiencia)
    ensures q.telefono == if c.telefono.Some? then c.telefono else p.telefono
    ensures q.email == if c.email.Some? then c.email else p.email
  {
    p.(nombre := c.nombre.GetOr(p.nombre),
       apellido := c.apellido.GetOr(p.apellido),
       especialidad := if c.especialidad.Some? then c.especialidad else p.especialidad,
       experiencia := c.experiencia.GetOr(p.experiencia),
       telefono := if c.telefono.Some? then c.telefono else p.telefono,
       email := if c.email.Some? then c.email else p.email)
  }

  /** `actualizarPersonal`: replaces only the fields that were sent; key,
      `ci`, role and status are never touched and no event is raised. */
  function ActualizarPersonal(db: Db, id: nat, c: CambiosPersonal): (r: (Result<Personal, Falla>, Db))
    ensures r.0.Failure? <==> BuscarPersonal(db.personal, id).None?
    ensures r.0.Failure? ==> r.1 == db && r.0.error == NoEncontrado
    ensures r.0.Success? ==>
      var k := BuscarPersonal(db.personal, id).value;
      && r.0.value == Aplicar(db.personal[k], c)
      && r.1.personal == db.personal[k := r.0.value]
      && r.1.(personal := db.personal) == db
  {
    match BuscarPersonal(db.personal, id)
    case None => (Failure(NoEncontrado), db)
    case Some(k) =>
      var q := Aplicar(db.personal[k], c);
      (Success(q), db.(personal := db.personal[k := q]))
  }

  /** Applying the same changes to a row twice is applying them once. */
  lemma AplicarIdempotente(p: Personal, c: CambiosPersonal)
    ensures Aplicar(Aplicar(p, c), c) == Aplicar(p, c)
  {
  }

  /** The update finds the member at the same position afterwards: it keeps
      every key. */
  lemma ActualizarMismaPosicion(db: Db, id: nat, c: CambiosPersonal)
    requires BuscarPersonal(db.personal, id).Some?
    ensures BuscarPersonal(ActualizarPersonal(db, id, c).1.personal, id) == BuscarPersonal(db.personal, id)
  {
    var r1 := ActualizarPersonal(db, id, c).1;
    assert forall j :: 0 <= j < |r1.personal| ==> r1.personal[j].id == db.personal[j].id;
    BuscarPersonalMismasClaves(db.personal, r1.personal, id);
  }

  /** Sending the same changes twice leaves the store as sending them once,
      and an update keeps keys and `ci` unique. */
  lemma ActualizarPersonalIdempotente(db: Db, id: nat, c: CambiosPersonal)
    ensures var r1 := ActualizarPersonal(db, id, c).1;
      ActualizarPersonal(r1, id, c).1 == r1
    ensures Valid(db) ==> Valid(ActualizarPersonal(db, id, c).1)
  {
    if BuscarPersonal(db.personal, id).Some? {
      var r1 := ActualizarPersonal(db, id, c).1;
      var k := BuscarPersonal(db.personal, id).value;
      ActualizarMismaPosicion(db, id, c);
      var q := Aplicar(db.personal[k], c);
      AplicarIdempotente(db.personal[k], c);
      assert r1.personal[k := q] == r1.personal;
      if Valid(db) {
        ActualizarPreservaValid(db, id, c);
      }
    }
  }

  /** Keys and `ci` stay as they were, so the update keeps them unique. */
  lemma ActualizarPreservaValid(db: Db, id: nat, c: CambiosPersonal)
    requires Valid(db)
    ensures Valid(ActualizarPersonal(db, id, c).1)
  {
    var r1 := ActualizarPersonal(db, id, c).1;
    assert forall j :: 0 <= j < |r1.personal| ==> r1.personal[j].id == db.personal[j].id && r1.personal[j].ci == db.personal[j].ci;
  }

  // ---------------------------------------------------------------------------
  // agregarFeedbackDespacho

  /** The answer of `agregarFeedbackDespacho`. */
  datatype Feedback = Feedback(
    despachoId: nat,
    calificacion: int,
    comentario: Option<string>,
    resultadoPaciente: Option<string>,
    registradoAt: string)

  function Texto(o: Option<string>): Json {
    if o.Some? then JStr(o.value) else JNull
  }

  /** The object stored under the `feedback` key. */
  function FeedbackJson(calificacion: int, comentario: Option<string>, resultado: Option<string>, registradoAt: string): Json {
    JObj(map["calificacion" := JInt(calificacion), "comentario" := Texto(comentario),
             "resultado_paciente" := Texto(resultado), "registrado_at" := JStr(registradoAt)])
  }

  /** `datos_adicionales` with the feedback put under `feedback`: every other
      key keeps its value, and a previous feedback is replaced. */
  function ConFeedback(datos: Option<map<string, Json>>, fb: Json): (r: map<string, Json>)
    ensures r.Keys == datos.GetOr(map[]).Keys + {"feedback"}
    ensures r["feedback"] == fb
    ensures forall k :: k in datos.GetOr(map[]) && k != "feedback" ==> r[k] == datos.GetOr(map[])[k]
  {
    datos.GetOr(map[])["feedback" := fb]
  }

  /** The store after the feedback of dispatch row `i` is saved. */
  function GuardarFeedback(db: Db, i: nat, calificacion: int, comentario: Option<string>,
                           resultado: Option<string>, registradoAt: string): (r: Db)
    requires i < |db.despachos|
    ensures |r.despachos| == |db.despachos|
    ensures r.despachos[i].datosAdicionales ==
      Some(ConFeedback(db.despachos[i].datosAdicionales, FeedbackJson(calificacion, comentario, resultado, registradoAt)))
    ensures r.despachos[i].(datosAdicionales := db.despachos[i].datosAdicionales) == db.despachos[i]
    ensures forall j :: 0 <= j < |db.despachos| && j != i ==> r.despachos[j] == db.despachos[j]
    ensures r.(despachos := db.despachos) == db
  {
    var d := db.despachos[i];
    var datos := ConFeedback(d.datosAdicionales, FeedbackJson(calificacion, comentario, resultado, registradoAt));
    Despachos.ConFila(db, i, d.(datosAdicionales := Some(datos)))
  }

  /** A nullable string argument without a schema default. */
  type ArgTexto = Consultas.Argumento<string>

  /** `agregarFeedbackDespacho` as written, at the time spelled `registradoAt`.
      The stored object uses null for a comment or patient outcome that was
      left out or sent as null. The answer reads both arguments from `$args`
      directly: an explicit null is answered as null, but a left-out argument
      has no key there, so the read throws after the save and the call fails
      with the feedback already stored. The rating is not range-checked. */
  function AgregarFeedbackTalCual(db: Db, despachoId: nat, calificacion: int, comentario: ArgTexto,
                                  resultado: ArgTexto, registradoAt: string): (r: (Result<Feedback, Falla>, Db))
    ensures BuscarDespacho(db.despachos, despachoId).None? ==> r == (Failure(NoEncontrado), db)
    ensures r.0.Success? <==>
      BuscarDespacho(db.despachos, despachoId).Some? && !comentario.Omitido? && !resultado.Omitido?
    ensures r.0.Failure? && BuscarDespacho(db.despachos, despachoId).Some? ==> r.0.error == ClaveIndefinida
    ensures r.0.Success? ==>
      r.0.value == Feedback(despachoId, calificacion, comentario.Valor(), resultado.Valor(), registradoAt)
    ensures |r.1.despachos| == |db.despachos|
    ensures BuscarDespacho(db.despachos, despachoId).Some? ==>
      var i := BuscarDespacho(db.despachos, despachoId).value;
      && r.1.despachos[i].datosAdicionales.Some? && "feedback" in r.1.despachos[i].datosAdicionales.value
      && r.1.despachos[i].datosAdicionales.value["feedback"]
         == FeedbackJson(calificacion, comentario.Valor(), resultado.Valor(), registradoAt)
  {
    match BuscarDespacho(db.despachos, despachoId)
    case None => (Failure(NoEncontrado), db)
    case Some(i) =>
      var db1 := GuardarFeedback(db, i, calificacion, comentario.Valor(), resultado.Valor(), registradoAt);
      if comentario.Omitido? || resultado.Omitido? then (Failure(ClaveIndefinida), db1)
      else (Success(Feedback(despachoId, calificacion, comentario.Valor(), resultado.Valor(), registradoAt)), db1)
  }

  /** The discrepancy: feedback whose comment was left out is reported as an
      error, although the store then holds exactly what it holds after the
      same feedback with the comment sent as null, which succeeds. */
  lemma FeedbackSinComentarioFallaTrasGuardar(db: Db, despachoId: nat, calificacion: int,
                                               resultado: ArgTexto, registradoAt: string)
    requires BuscarDespacho(db.despachos, despachoId).Some?
    requires !resultado.Omitido?
    ensures var omitido := AgregarFeedbackTalCual(db, despachoId, calificacion, Consultas.Omitido, resultado, registradoAt);
      var nulo := AgregarFeedbackTalCual(db, despachoId, calificacion, Consultas.Nulo, resultado, registradoAt);
      var i := BuscarDespacho(db.despachos, despachoId).value;
      && omitido.0.Failure?
      && nulo.0.Success? && nulo.0.value.comentario.None?
      && omitido.1 == nulo.1
      && omitido.1.despachos[i].datosAdicionales.value["feedback"]
         == FeedbackJson(calificacion, None, resultado.Valor(), registradoAt)
  {
  }

  /** `agregarFeedbackDespacho` as evidently intended: the answer carries the
      same values as the stored object, null for what was left out or sent as
      null. */
  function AgregarFeedback(db: Db, despachoId: nat, calificacion: int, comentario: ArgTexto,
                           resultado: ArgTexto, registradoAt: string): (r: (Result<Feedback, Falla>, Db))
    ensures r.0.Failure? <==> BuscarDespacho(db.despachos, despachoId).None?
    ensures r.0.Failure? ==> r == (Failure(NoEncontrado), db)
    ensures r.0.Success? ==>
      var i := BuscarDespacho(db.despachos, despachoId).value;
      var f := r.0.value;
      && f.despachoId == despachoId
      && |r.1.despachos| == |db.despachos|
      && r.1.despachos[i].datosAdicionales.Some?
      && "feedback" in r.1.despachos[i].datosAdicionales.value
      && r.1.despachos[i].datosAdicionales.value["feedback"]
         == FeedbackJson(f.calificacion, f.comentario, f.resultadoPaciente, f.registradoAt)
      && f == Feedback(despachoId, calificacion, comentario.Valor(), resultado.Valor(), registradoAt)
  {
    match BuscarDespacho(db.despachos, despachoId)
    case None => (Failure(NoEncontrado), db)
    case Some(i) =>
      (Success(Feedback(despachoId, calificacion, comentario.Valor(), resultado.Valor(), registradoAt)),
       GuardarFeedback(db, i, calificacion, comentario.Valor(), resultado.Valor(), registradoAt))
  }

  /** The corrected call stores what the call as written stores, and differs
      only in answering instead of failing. */
  lemma FeedbackCorregidoGuardaLoMismo(db: Db, despachoId: nat, calificacion: int, comentario: ArgTexto,
                                       resultado: ArgTexto, registradoAt: string)
    ensures var a := AgregarFeedback(db, despachoId, calificacion, comentario, resultado, registradoAt);
      var b := AgregarFeedbackTalCual(db, despachoId, calificacion, comentario, resultado, registradoAt);
      && a.1 == b.1
      && (b.0.Success? ==> a.0 == b.0)
      && (a.0.Failure? ==> b.0.Failure?)
  {
  }

  /** A second feedback replaces the first and keeps every other key of
      `datos_adicionales`. */
  lemma FeedbackUltimoGana(db: Db, despachoId: nat, c1: int, m1: ArgTexto, r1: ArgTexto, t1: string,
                           c2: int, m2: ArgTexto, r2: ArgTexto, t2: string)
    requires BuscarDespacho(db.despachos, despachoId).Some?
    ensures var i := BuscarDespacho(db.despachos, despachoId).value;
      var a := AgregarFeedback(db, despachoId, c1, m1, r1, t1).1;
      var b := AgregarFeedback(a, despachoId, c2, m2, r2, t2);
      && b.0.Success?
      && b.1.despachos[i].datosAdicionales == AgregarFeedback(db, despachoId, c2, m2, r2, t2).1.despachos[i].datosAdicionales
  {
    var i := BuscarDespacho(db.despachos, despachoId).value;
    var a := AgregarFeedback(db, despachoId, c1, m1, r1, t1).1;
    BuscarDespachoMismasClaves(db.despachos, a.despachos, despachoId);
    var x := ConFeedback(a.despachos[i].datosAdicionales, FeedbackJson(c2, m2.Valor(), r2.Valor(), t2));
    var y := ConFeedback(db.despachos[i].datosAdicionales, FeedbackJson(c2, m2.Valor(), r2.Valor(), t2));
    assert x == y;
  }
}
