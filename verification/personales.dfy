/** The crew model: query scopes, availability test, status changes (which
    raise an event carrying the previous and the new status) and the full name. */
module Personales {
  import opened Wrappers
  import opened Enums
  import opened Records
  import opened Seqs

  predicate EstaDisponible(p: Personal) {
    p.estado == PDisponible
  }

  /** `scopeDisponibles`: the crew members whose estado is `disponible`. */
  function ScopeDisponibles(s: seq<Personal>): (r: seq<Personal>)
    ensures forall i :: 0 <= i < |r| ==> r[i] in s && r[i].estado == PDisponible
    ensures forall i :: 0 <= i < |s| && s[i].estado == PDisponible ==> s[i] in r
  {
    Filter(EstaDisponible, s)
  }

  /** `scopePorRol`: the crew members whose stored role is spelled `rol`; a
      string outside the enumeration selects nothing. */
  function ScopePorRol(s: seq<Personal>, rol: string): (r: seq<Personal>)
    ensures forall p :: p in r <==> p in s && p.rol.Name() == rol
    ensures ParseRol(rol).None? ==> r == []
  {
    var r := Filter((p: Personal) => p.rol.Name() == rol, s);
    assert ParseRol(rol).None? && |r| > 0 ==> r[0] in r;
    r
  }

  /** Positions, in increasing order, of the available members of role `rol`
      from position `desde` on: the rows `disponibles()->where('rol', rol)` returns. */
  function IndicesDisponibles(s: seq<Personal>, rol: string, desde: nat): (r: seq<nat>)
    requires desde <= |s|
    ensures forall i :: 0 <= i < |r| ==> desde <= r[i] < |s| && s[r[i]].estado == PDisponible && s[r[i]].rol.Name() == rol
    ensures forall k :: desde <= k < |s| && s[k].estado == PDisponible && s[k].rol.Name() == rol ==> k in r
    ensures forall i, j :: 0 <= i < j < |r| ==> r[i] < r[j]
    decreases |s| - desde
  {
    if desde == |s| then []
    else if s[desde].estado == PDisponible && s[desde].rol.Name() == rol then [desde] + IndicesDisponibles(s, rol, desde + 1)
    else IndicesDisponibles(s, rol, desde + 1)
  }

  /** Two tables that agree on which rows are available members of `rol` give
      the same positions. */
  lemma {:induction false} IndicesIguales(s: seq<Personal>, t: seq<Personal>, rol: string, desde: nat)
    requires |s| == |t| && desde <= |s|
    requires forall k :: desde <= k < |s| ==>
      (s[k].estado == PDisponible && s[k].rol.Name() == rol) == (t[k].estado == PDisponible && t[k].rol.Name() == rol)
    ensures IndicesDisponibles(s, rol, desde) == IndicesDisponibles(t, rol, desde)
    decreases |s| - desde
  {
    if desde < |s| {
      IndicesIguales(s, t, rol, desde + 1);
    }
  }

  // ---------------------------------------------------------------------------
  // Status changes

  /** `cambiarEstado`: sets the status of row `i` and raises the status event
      with the previous and the new status. */
  function CambiarEstado(db: Db, i: nat, nuevo: EstadoPersonal): (r: Db)
    requires i < |db.personal|
    ensures |r.personal| == |db.personal|
    ensures r.personal[i].estado == nuevo && r.personal[i].(estado := db.personal[i].estado) == db.personal[i]
    ensures forall j :: 0 <= j < |db.personal| && j != i ==> r.personal[j] == db.personal[j]
    ensures r.eventos == db.eventos + [PersonalEstadoCambiado(db.personal[i].id, db.personal[i].estado, nuevo)]
    ensures r.(personal := db.personal, eventos := db.eventos) == db
  {
    var p := db.personal[i];
    db.(personal := db.personal[i := p.(estado := nuevo)],
        eventos := db.eventos + [PersonalEstadoCambiado(p.id, p.estado, nuevo)])
  }

  function MarcarEnServicio(db: Db, i: nat): (r: Db)
    requires i < |db.personal|
    ensures r == CambiarEstado(db, i, PEnServicio)
  {
    CambiarEstado(db, i, PEnServicio)
  }

  function MarcarDisponible(db: Db, i: nat): (r: Db)
    requires i < |db.personal|
    ensures r == CambiarEstado(db, i, PDisponible)
  {
    CambiarEstado(db, i, PDisponible)
  }

  /** Taking an available member into service and releasing them restores the
      crew table; the two status events stay in the log. */
  lemma MarcarIdaYVuelta(db: Db, i: nat)
    requires i < |db.personal| && EstaDisponible(db.personal[i])
    ensures var r := MarcarDisponible(MarcarEnServicio(db, i), i);
      && r.personal == db.personal
      && r.eventos == db.eventos + [PersonalEstadoCambiado(db.personal[i].id, PDisponible, PEnServicio),
                                    PersonalEstadoCambiado(db.personal[i].id, PEnServicio, PDisponible)]
  {
    var r := MarcarDisponible(MarcarEnServicio(db, i), i);
    assert r.personal[i] == db.personal[i];
  }

  // ---------------------------------------------------------------------------
  // Full name

  function NombreCompleto(p: Personal): (r: string)
    ensures |r| == |p.nombre| + 1 + |p.apellido|
  {
    p.nombre + " " + p.apellido
  }

  /** The full name splits back into the first name and the surname at the
      position after the first name. */
  lemma NombreCompletoSeSepara(p: Personal)
    ensures var r := NombreCompleto(p);
      r[..|p.nombre|] == p.nombre && r[|p.nombre|] == ' ' && r[|p.nombre| + 1..] == p.apellido
  {
    var r := NombreCompleto(p);
    assert r == p.nombre + [' '] + p.apellido;
  }
}
