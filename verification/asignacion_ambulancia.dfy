/** Vehicle selection of the assignment service: the nearest available
    vehicle with a position (optionally of one tier) within a radius, and the
    available vehicles listed by distance. */
module AsignacionAmbulancia {
  import opened Wrappers
  import opened Numeric
  import opened Enums
  import opened Records
  import opened Seqs
  import Gps

  /** Default search radius in kilometres. */
  const RadioMaximoPorDefecto: real := 50.0

  /** Default length of the distance listing. */
  const LimitePorDefecto: int := 5

  /** The stored position of a vehicle (only read for vehicles that have one). */
  function Posicion(a: Ambulancia): Gps.Coord {
    Gps.Coord(a.lat.GetOr(0.0), a.lng.GetOr(0.0))
  }

  /** Whether a requested tier restricts the search: PHP treats a missing
      value, the empty string and "0" as no requirement. */
  predicate FiltraTipo(tipo: Option<string>) {
    tipo.Some? && tipo.value != "" && tipo.value != "0"
  }

  /** Available, with both coordinates, and of the requested tier if one is required. */
  predicate Candidata(a: Ambulancia, tipo: Option<string>) {
    && a.estado == Disponible
    && a.lat.Some? && a.lng.Some?
    && (FiltraTipo(tipo) ==> a.tipo.Name() == tipo.value)
  }

  function Candidatas(s: seq<Ambulancia>, tipo: Option<string>): (r: seq<Ambulancia>)
    ensures forall i :: 0 <= i < |r| ==> r[i] in s && Candidata(r[i], tipo)
    ensures forall i :: 0 <= i < |s| && Candidata(s[i], tipo) ==> s[i] in r
  {
    Filter((a: Ambulancia) => Candidata(a, tipo), s)
  }

  function Distancia(h: Gps.Haversine, origen: Gps.Coord, a: Ambulancia): real {
    Gps.DistanciaKm(h, origen, Posicion(a))
  }

  /** `encontrarAmbulanciaMasCercana`: none for an invalid origin, when no
      vehicle qualifies, or when the nearest one is beyond `radioKm`;
      otherwise the nearest qualifying vehicle and its distance. */
  function EncontrarAmbulanciaMasCercana(
    h: Gps.Haversine, db: Db, origen: Gps.Coord, tipo: Option<string>, radioKm: real)
    : (r: Option<Gps.ConDistancia<Ambulancia>>)
    ensures r.Some? ==>
      && Gps.ValidarCoordenadas(origen.lat, origen.lng)
      && r.value.punto in db.ambulancias
      && Candidata(r.value.punto, tipo)
      && r.value.distanciaKm == Distancia(h, origen, r.value.punto)
      && r.value.distanciaKm <= radioKm
      && forall a :: a in db.ambulancias && Candidata(a, tipo) ==> r.value.distanciaKm <= Distancia(h, origen, a)
    ensures r.Some? <==>
      && Gps.ValidarCoordenadas(origen.lat, origen.lng)
      && exists a :: a in db.ambulancias && Candidata(a, tipo)
                     && Distancia(h, origen, a) < FloatMax && Distancia(h, origen, a) <= radioKm
  {
    if !Gps.ValidarCoordenadas(origen.lat, origen.lng) then None
    else
      var cands := Candidatas(db.ambulancias, tipo);
      if |cands| == 0 then None
      else
        match Gps.EncontrarPuntoMasCercano(h, origen, Posicion, cands)
        case None =>
          assert forall a :: a in db.ambulancias && Candidata(a, tipo) ==> Distancia(h, origen, a) >= FloatMax by {
            forall a | a in db.ambulancias && Candidata(a, tipo) ensures Distancia(h, origen, a) >= FloatMax {
              var j :| 0 <= j < |cands| && cands[j] == a;
            }
          }
          None
        case Some(c) =>
          Gps.MasCercanoEsMinimo(h, origen, Posicion, cands);
          if c.distanciaKm > radioKm then
            assert forall a :: a in db.ambulancias && Candidata(a, tipo) ==> Distancia(h, origen, a) > radioKm by {
              forall a | a in db.ambulancias && Candidata(a, tipo) ensures Distancia(h, origen, a) > radioKm {
                assert a in cands;
              }
            }
            None
          else
            assert c.distanciaKm < FloatMax by {
              var ds := Gps.Distancias(h, origen, Posicion, cands);
              var k :| 0 <= k < |cands| && Gps.EsPrimerMinimo(ds, k)
                && c == Gps.ConDistancia(cands[k], Gps.DistanciaKm(h, origen, Posicion(cands[k])));
            }
            assert forall a :: a in db.ambulancias && Candidata(a, tipo) ==> c.distanciaKm <= Distancia(h, origen, a) by {
              forall a | a in db.ambulancias && Candidata(a, tipo) ensures c.distanciaKm <= Distancia(h, origen, a) {
                assert a in cands;
              }
            }
            Some(c)
  }

  /** A larger radius never loses a vehicle found within a smaller one, and
      finds the same vehicle. */
  lemma RadioMayorConservaResultado(
    h: Gps.Haversine, db: Db, origen: Gps.Coord, tipo: Option<string>, r1: real, r2: real)
    requires r1 <= r2
    requires EncontrarAmbulanciaMasCercana(h, db, origen, tipo, r1).Some?
    ensures EncontrarAmbulanciaMasCercana(h, db, origen, tipo, r2) == EncontrarAmbulanciaMasCercana(h, db, origen, tipo, r1)
  {
  }

  /** `listarAmbulanciasPorDistancia`: the available vehicles with a position,
      nearest first, cut by the collection `take(limite)` (a negative limit
      keeps the farthest `-limite`). */
  function ListarAmbulanciasPorDistancia(h: Gps.Haversine, db: Db, origen: Gps.Coord, limite: int)
    : (r: seq<Gps.ConDistancia<Ambulancia>>)
    ensures limite >= 0 ==> |r| <= limite
    ensures var m := |Candidatas(db.ambulancias, None)|;
      |r| == if limite >= 0 then (if limite < m then limite else m) else (if -limite < m then -limite else m)
    ensures forall i :: 0 <= i < |r| ==>
      && r[i].punto in db.ambulancias && Candidata(r[i].punto, None)
      && r[i].distanciaKm == Distancia(h, origen, r[i].punto)
    ensures forall i, j :: 0 <= i < j < |r| ==> r[i].distanciaKm <= r[j].distanciaKm
    ensures multiset(r) <= multiset(Gps.Anotar(h, origen, Posicion, Candidatas(db.ambulancias, None)))
    ensures limite >= 0 ==> forall a, i :: (a in Candidatas(db.ambulancias, None) && 0 <= i < |r|
      && Gps.ConDistancia(a, Distancia(h, origen, a)) !in r) ==> r[i].distanciaKm <= Distancia(h, origen, a)
    ensures limite < 0 ==> forall a, i :: (a in Candidatas(db.ambulancias, None) && 0 <= i < |r|
      && Gps.ConDistancia(a, Distancia(h, origen, a)) !in r) ==> r[i].distanciaKm >= Distancia(h, origen, a)
  {
    var cands := Candidatas(db.ambulancias, None);
    if |cands| == 0 then []
    else
      ListadoOrden(h, origen, cands, limite);
      ListadoContenido(h, origen, cands, limite);
      Take(Gps.OrdenarPorDistancia(h, origen, Posicion, cands), limite)
  }

  /** The entries `take(limite)` keeps of the candidates sorted by distance
      are candidates with their own distance, still nearest first. */
  lemma ListadoOrden(h: Gps.Haversine, origen: Gps.Coord, cands: seq<Ambulancia>, limite: int)
    ensures var r := Take(Gps.OrdenarPorDistancia(h, origen, Posicion, cands), limite);
      && (forall i :: 0 <= i < |r| ==> r[i].punto in cands && r[i].distanciaKm == Distancia(h, origen, r[i].punto))
      && (forall i, j :: 0 <= i < j < |r| ==> r[i].distanciaKm <= r[j].distanciaKm)
  {
    var ordenadas := Gps.OrdenarPorDistancia(h, origen, Posicion, cands);
    var r := Take(ordenadas, limite);
    TakeSlice(ordenadas, limite);
    var o := if limite >= 0 then 0 else |ordenadas| - |r|;
    Gps.SliceOrdenado(ordenadas, o, o + |r|);
  }

  /** What `take(limite)` keeps of the candidates sorted by distance: each
      entry at most as often as the candidates give it, and no candidate left
      out is nearer than a kept one (farther, for a negative limit, which
      keeps the far end). */
  lemma ListadoContenido(h: Gps.Haversine, origen: Gps.Coord, cands: seq<Ambulancia>, limite: int)
    ensures var r := Take(Gps.OrdenarPorDistancia(h, origen, Posicion, cands), limite);
      && multiset(r) <= multiset(Gps.Anotar(h, origen, Posicion, cands))
      && (limite >= 0 ==> forall a, i :: (a in cands && 0 <= i < |r|
            && Gps.ConDistancia(a, Distancia(h, origen, a)) !in r) ==> r[i].distanciaKm <= Distancia(h, origen, a))
      && (limite < 0 ==> forall a, i :: (a in cands && 0 <= i < |r|
            && Gps.ConDistancia(a, Distancia(h, origen, a)) !in r) ==> r[i].distanciaKm >= Distancia(h, origen, a))
  {
    var ordenadas := Gps.OrdenarPorDistancia(h, origen, Posicion, cands);
    var r := Take(ordenadas, limite);
    TakeSlice(ordenadas, limite);
    var o := if limite >= 0 then 0 else |ordenadas| - |r|;
    TramoMulticonjunto(ordenadas, o, o + |r|, r, Gps.Anotar(h, origen, Posicion, cands));
    forall a, i | a in cands && 0 <= i < |r| && Gps.ConDistancia(a, Distancia(h, origen, a)) !in r
      ensures limite >= 0 ==> r[i].distanciaKm <= Distancia(h, origen, a)
      ensures limite < 0 ==> r[i].distanciaKm >= Distancia(h, origen, a)
    {
      ListadoExcluido(h, origen, cands, limite, a, i);
    }
  }

  /** One candidate left out of the listing against one kept entry. */
  lemma ListadoExcluido(h: Gps.Haversine, origen: Gps.Coord, cands: seq<Ambulancia>, limite: int, a: Ambulancia, i: nat)
    requires a in cands
    requires var r := Take(Gps.OrdenarPorDistancia(h, origen, Posicion, cands), limite);
      i < |r| && Gps.ConDistancia(a, Distancia(h, origen, a)) !in r
    ensures var r := Take(Gps.OrdenarPorDistancia(h, origen, Posicion, cands), limite);
      && (limite >= 0 ==> r[i].distanciaKm <= Distancia(h, origen, a))
      && (limite < 0 ==> r[i].distanciaKm >= Distancia(h, origen, a))
  {
    var ordenadas := Gps.OrdenarPorDistancia(h, origen, Posicion, cands);
    var r := Take(ordenadas, limite);
    TakeSlice(ordenadas, limite);
    var o := if limite >= 0 then 0 else |ordenadas| - |r|;
    AnotadaOrdenada(h, origen, cands, a);
    TramoExcluido(ordenadas, o, o + |r|, Gps.ConDistancia(a, Distancia(h, origen, a)), i);
  }

  /** Every candidate appears, with its distance, in the sorted list. */
  lemma AnotadaOrdenada(h: Gps.Haversine, origen: Gps.Coord, cands: seq<Ambulancia>, a: Ambulancia)
    requires a in cands
    ensures Gps.ConDistancia(a, Distancia(h, origen, a)) in Gps.OrdenarPorDistancia(h, origen, Posicion, cands)
  {
    var anotadas := Gps.Anotar(h, origen, Posicion, cands);
    var k :| 0 <= k < |cands| && cands[k] == a;
    assert anotadas[k] == Gps.ConDistancia(a, Distancia(h, origen, a));
    assert anotadas[k] in multiset(Gps.OrdenarPorDistancia(h, origen, Posicion, cands));
  }

  /** A stretch `r` of a list holds each entry at most as often as the list,
      or as any permutation `t` of it. */
  lemma TramoMulticonjunto<T>(s: seq<T>, a: nat, b: nat, r: seq<T>, t: seq<T>)
    requires a <= b <= |s| && r == s[a..b] && multiset(s) == multiset(t)
    ensures multiset(r) <= multiset(t)
  {
    assert s == s[..a] + s[a..b] + s[b..];
  }

  /** An entry at a position inside a stretch belongs to the stretch. */
  lemma EnTramo<T>(s: seq<T>, a: nat, b: nat, m: nat)
    requires a <= m < b <= |s|
    ensures s[m] in s[a..b]
  {
    assert s[a..b][m - a] == s[m];
  }

  /** In a list sorted by distance, an entry outside a leading stretch is not
      nearer than the stretch's entries, and one outside a trailing stretch
      is not farther. */
  lemma TramoExcluido<T>(s: seq<Gps.ConDistancia<T>>, a: nat, b: nat, x: Gps.ConDistancia<T>, i: nat)
    requires a <= b <= |s| && i < b - a
    requires forall p, q :: 0 <= p < q < |s| ==> s[p].distanciaKm <= s[q].distanciaKm
    requires x in s && x !in s[a..b]
    ensures a == 0 ==> s[a..b][i].distanciaKm <= x.distanciaKm
    ensures b == |s| ==> s[a..b][i].distanciaKm >= x.distanciaKm
  {
    var m :| 0 <= m < |s| && s[m] == x;
    assert s[a..b][i] == s[a + i];
    if a <= m < b {
      EnTramo(s, a, b, m);
      assert false;
    }
  }

  /** The first vehicle of a non-empty listing is as close as the vehicle the
      nearest-vehicle search returns without a tier requirement. */
  lemma ListadoEmpiezaPorMasCercana(h: Gps.Haversine, db: Db, origen: Gps.Coord, limite: int, radioKm: real)
    requires limite > 0
    requires EncontrarAmbulanciaMasCercana(h, db, origen, None, radioKm).Some?
    ensures |ListarAmbulanciasPorDistancia(h, db, origen, limite)| > 0
    ensures ListarAmbulanciasPorDistancia(h, db, origen, limite)[0].distanciaKm
         == EncontrarAmbulanciaMasCercana(h, db, origen, None, radioKm).value.distanciaKm
  {
    var cands := Candidatas(db.ambulancias, None);
    var c := EncontrarAmbulanciaMasCercana(h, db, origen, None, radioKm).value;
    assert c.punto in cands;
    var l := ListarAmbulanciasPorDistancia(h, db, origen, limite);
    var o := Gps.OrdenarPorDistancia(h, origen, Posicion, cands);
    assert l[0] == o[0];
    assert o[0].punto in cands;
    var k :| 0 <= k < |cands| && cands[k] == c.punto;
    var a := Gps.Anotar(h, origen, Posicion, cands);
    assert a[k] in multiset(o);
  }
}
