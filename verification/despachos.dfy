/** The dispatch model: the active-state scope, status change with its
    event, the actual travel time and the responsible crew member. */
module Despachos {
  import opened Wrappers
  import opened Enums
  import opened Records
  import opened Seqs

  /** The states of a dispatch that still holds its vehicle. */
  const EstadosActivos: set<EstadoDespacho> := {Asignado, EnCamino, EnSitio, Trasladando}

  /** `estaActivo`. */
  predicate EstaActivo(d: Despacho) {
    d.estado in EstadosActivos
  }

  /** Active means neither waiting for a vehicle nor concluded. */
  lemma ActivoSiNoPendienteNiTerminal(d: Despacho)
    ensures EstaActivo(d) <==> d.estado !in {Pendiente, Completado, Cancelado}
  {
    match d.estado
    case Pendiente =>
    case Asignado =>
    case EnCamino =>
    case EnSitio =>
    case Trasladando =>
    case Completado =>
    case Cancelado =>
  }

  /** `scopeActivos`: exactly the rows `estaActivo` accepts, in table order. */
  function ScopeActivos(s: seq<Despacho>): (r: seq<Despacho>)
    ensures forall i :: 0 <= i < |r| ==> r[i] in s && EstaActivo(r[i])
    ensures forall i :: 0 <= i < |s| && EstaActivo(s[i]) ==> s[i] in r
  {
    Filter(EstaActivo, s)
  }

  /** `scopePorEstado`: the rows whose status is spelled `estado`. */
  function ScopePorEstado(s: seq<Despacho>, estado: string): (r: seq<Despacho>)
    ensures forall i :: 0 <= i < |r| ==> r[i] in s && r[i].estado.Name() == estado
    ensures forall i :: 0 <= i < |s| && s[i].estado.Name() == estado ==> s[i] in r
  {
    Filter((d: Despacho) => d.estado.Name() == estado, s)
  }

  /** `scopePorPrioridad`: the rows whose priority is spelled `prioridad`. */
  function ScopePorPrioridad(s: seq<Despacho>, prioridad: string): (r: seq<Despacho>)
    ensures forall i :: 0 <= i < |r| ==> r[i] in s && r[i].prioridad.Name() == prioridad
    ensures forall i :: 0 <= i < |s| && s[i].prioridad.Name() == prioridad ==> s[i] in r
  {
    Filter((d: Despacho) => d.prioridad.Name() == prioridad, s)
  }

  /** Every active row is selected by the status scope of one of the four
      active states. */
  lemma ActivosPorEstado(s: seq<Despacho>, d: Despacho)
    requires d in ScopeActivos(s)
    ensures exists e :: e in EstadosActivos && d in ScopePorEstado(s, e.Name())
  {
    var k :| 0 <= k < |ScopeActivos(s)| && ScopeActivos(s)[k] == d;
    var j :| 0 <= j < |s| && s[j] == d;
    assert d in ScopePorEstado(s, d.estado.Name());
  }

  // ---------------------------------------------------------------------------
  // Status change

  /** Replaces row `i` of the dispatch table. */
  function ConFila(db: Db, i: nat, d: Despacho): (r: Db)
    requires i < |db.despachos|
    ensures r.despachos == db.despachos[i := d]
    ensures r.(despachos := db.despachos) == db
  {
    db.(despachos := db.despachos[i := d])
  }

  /** `cambiarEstado`: sets the status of row `i` and raises the status event
      carrying the previous and the new status. */
  function CambiarEstado(db: Db, i: nat, nuevo: EstadoDespacho): (r: Db)
    requires i < |db.despachos|
    ensures |r.despachos| == |db.despachos|
    ensures r.despachos[i].estado == nuevo
    ensures r.despachos[i].(estado := db.despachos[i].estado) == db.despachos[i]
    ensures forall j :: 0 <= j < |db.despachos| && j != i ==> r.despachos[j] == db.despachos[j]
    ensures r.eventos == db.eventos + [DespachoEstadoCambiado(db.despachos[i].id, db.despachos[i].estado, nuevo)]
    ensures r.(despachos := db.despachos, eventos := db.eventos) == db
  {
    var d := db.despachos[i];
    ConFila(db, i, d.(estado := nuevo)).(eventos := db.eventos + [DespachoEstadoCambiado(d.id, d.estado, nuevo)])
  }

  /** Changing the status twice keeps only the second status, and the log
      records both moves in order. */
  lemma CambiarEstadoDosVeces(db: Db, i: nat, e1: EstadoDespacho, e2: EstadoDespacho)
    requires i < |db.despachos|
    ensures var r := CambiarEstado(CambiarEstado(db, i, e1), i, e2);
      && r.despachos == CambiarEstado(db, i, e2).despachos
      && r.eventos == db.eventos + [DespachoEstadoCambiado(db.despachos[i].id, db.despachos[i].estado, e1),
                                    DespachoEstadoCambiado(db.despachos[i].id, e1, e2)]
  {
  }

  // ---------------------------------------------------------------------------
  // Actual travel time

  /** `calcularTiempoReal`: minutes from assignment to arrival, when both are
      recorded. The difference is signed, as Carbon 3's `diffInMinutes`
      gives it (Carbon 2 returns its absolute value). */
  function CalcularTiempoReal(d: Despacho): (r: Option<int>)
    ensures r.Some? <==> d.fechaAsignacion.Some? && d.fechaLlegada.Some?
    ensures r.Some? ==> d.fechaAsignacion.value + r.value == d.fechaLlegada.value
  {
    if d.fechaAsignacion.Some? && d.fechaLlegada.Some? then Some(d.fechaLlegada.value - d.fechaAsignacion.value)
    else None
  }

  // ---------------------------------------------------------------------------
  // Responsible member

  /** The crew member behind the first link of `despachoId`, from position
      `desde` on, that is flagged responsible and whose row exists. */
  function ResponsableDesde(links: seq<Asignacion>, ps: seq<Personal>, despachoId: nat, desde: nat)
    : (r: Option<nat>)
    requires desde <= |links|
    ensures r.Some? ==> desde <= r.value < |links| && EsVinculoResponsable(links[r.value], ps, despachoId)
    ensures r.Some? ==> forall j :: desde <= j < r.value ==> !EsVinculoResponsable(links[j], ps, despachoId)
    ensures r.None? <==> forall j :: desde <= j < |links| ==> !EsVinculoResponsable(links[j], ps, despachoId)
    decreases |links| - desde
  {
    if desde == |links| then None
    else if EsVinculoResponsable(links[desde], ps, despachoId) then Some(desde)
    else ResponsableDesde(links, ps, despachoId, desde + 1)
  }

  predicate EsVinculoResponsable(l: Asignacion, ps: seq<Personal>, despachoId: nat) {
    l.despachoId == despachoId && l.esResponsable && BuscarPersonal(ps, l.personalId).Some?
  }

  /** `getResponsableAttribute`: the member of the first responsible link of
      the dispatch, or none. */
  function Responsable(db: Db, despachoId: nat): (r: Option<Personal>)
    ensures r.None? <==> forall j :: 0 <= j < |db.asignaciones| ==> !EsVinculoResponsable(db.asignaciones[j], db.personal, despachoId)
    ensures r.Some? ==> r.value in db.personal && exists j :: (
      && 0 <= j < |db.asignaciones|
      && db.asignaciones[j].despachoId == despachoId && db.asignaciones[j].esResponsable
      && db.asignaciones[j].personalId == r.value.id
      && forall k :: 0 <= k < j ==> !EsVinculoResponsable(db.asignaciones[k], db.personal, despachoId))
  {
    match ResponsableDesde(db.asignaciones, db.personal, despachoId, 0)
    case None => None
    case Some(j) => Some(db.personal[BuscarPersonal(db.personal, db.asignaciones[j].personalId).value])
  }
}
