/** The ambulance model: its query scopes, availability test and the three
    writes the dispatch engine performs on a vehicle. */
module Ambulancias {
  import opened Wrappers
  import opened Enums
  import opened Records
  import opened Seqs

  predicate EstaDisponible(a: Ambulancia) {
    a.estado == Disponible
  }

  predicate EstaEnServicio(a: Ambulancia) {
    a.estado == EnServicio
  }

  /** `scopeDisponibles`: the vehicles whose estado is `disponible`, in table order. */
  function ScopeDisponibles(s: seq<Ambulancia>): (r: seq<Ambulancia>)
    ensures forall i :: 0 <= i < |r| ==> r[i] in s && r[i].estado == Disponible
    ensures forall i :: 0 <= i < |s| && s[i].estado == Disponible ==> s[i] in r
  {
    Filter(EstaDisponible, s)
  }

  /** `scopeEnServicio`: the vehicles whose estado is `en_servicio`. */
  function ScopeEnServicio(s: seq<Ambulancia>): (r: seq<Ambulancia>)
    ensures forall i :: 0 <= i < |r| ==> r[i] in s && r[i].estado == EnServicio
    ensures forall i :: 0 <= i < |s| && s[i].estado == EnServicio ==> s[i] in r
  {
    Filter(EstaEnServicio, s)
  }

  /** `scopePorTipo`: the vehicles whose stored tier is spelled `tipo`; a string
      outside the enumeration selects nothing. */
  function ScopePorTipo(s: seq<Ambulancia>, tipo: string): (r: seq<Ambulancia>)
    ensures forall a :: a in r <==> a in s && a.tipo.Name() == tipo
    ensures ParseTipoAmbulancia(tipo).None? ==> r == []
  {
    var r := Filter((a: Ambulancia) => a.tipo.Name() == tipo, s);
    assert ParseTipoAmbulancia(tipo).None? && |r| > 0 ==> r[0] in r;
    r
  }

  /** A vehicle is never both available and in service, and the two scopes
      never share a row. */
  lemma ScopesDisjuntos(s: seq<Ambulancia>)
    ensures forall i, j :: 0 <= i < |ScopeDisponibles(s)| && 0 <= j < |ScopeEnServicio(s)| ==>
      ScopeDisponibles(s)[i] != ScopeEnServicio(s)[j]
  {
  }

  // ---------------------------------------------------------------------------
  // Writes on one vehicle

  function MarcarEnServicio(a: Ambulancia): (r: Ambulancia)
    ensures r.estado == EnServicio
    ensures r.(estado := a.estado) == a
  {
    a.(estado := EnServicio)
  }

  function MarcarDisponible(a: Ambulancia): (r: Ambulancia)
    ensures EstaDisponible(r)
    ensures r.(estado := a.estado) == a
  {
    a.(estado := Disponible)
  }

  /** Taking an available vehicle into service and releasing it gives it back unchanged. */
  lemma MarcarIdaYVuelta(a: Ambulancia)
    requires EstaDisponible(a)
    ensures MarcarDisponible(MarcarEnServicio(a)) == a
    ensures !EstaDisponible(MarcarEnServicio(a))
  {
  }

  /** Replaces row `i` of the vehicle table. */
  function ConFila(db: Db, i: nat, a: Ambulancia): (r: Db)
    requires i < |db.ambulancias|
    ensures r.ambulancias == db.ambulancias[i := a]
    ensures r.(ambulancias := db.ambulancias) == db
  {
    db.(ambulancias := db.ambulancias[i := a])
  }

  /** `actualizarUbicacion`: stores the position and the time of the update,
      and raises the location event. */
  function ActualizarUbicacion(db: Db, i: nat, lat: real, lng: real, ahora: int): (r: Db)
    requires i < |db.ambulancias|
    ensures |r.ambulancias| == |db.ambulancias|
    ensures var a := r.ambulancias[i];
      && a.lat == Some(lat) && a.lng == Some(lng) && a.ultimaActualizacion == Some(ahora)
      && a.(lat := db.ambulancias[i].lat, lng := db.ambulancias[i].lng,
            ultimaActualizacion := db.ambulancias[i].ultimaActualizacion) == db.ambulancias[i]
    ensures forall j :: 0 <= j < |db.ambulancias| && j != i ==> r.ambulancias[j] == db.ambulancias[j]
    ensures r.eventos == db.eventos + [AmbulanciaUbicacionActualizada(db.ambulancias[i].id)]
    ensures r.(ambulancias := db.ambulancias, eventos := db.eventos) == db
  {
    var a := db.ambulancias[i].(lat := Some(lat), lng := Some(lng), ultimaActualizacion := Some(ahora));
    ConFila(db, i, a).(eventos := db.eventos + [AmbulanciaUbicacionActualizada(a.id)])
  }
}
