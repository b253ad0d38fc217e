/** The geospatial service: coordinate validation, distances with unit
    selection, the nearest-point scan, sorting by distance, route length,
    radius test, midpoint and travel-time estimate.

    The great-circle distance itself is computed by an external Haversine
    library; here it is the parameter `h`, giving metres between two
    coordinates, and every property is stated relative to it. */
module Gps {
  import opened Wrappers
  import opened Numeric
  import opened Seqs

  datatype Coord = Coord(lat: real, lng: real)

  /** Distance in metres between two coordinates, as the Haversine library returns it. */
  type Haversine = (Coord, Coord) -> real

  /** A point annotated with its rounded distance in kilometres (`distancia_km`). */
  datatype ConDistancia<T> = ConDistancia(punto: T, distanciaKm: real)

  // ---------------------------------------------------------------------------
  // Validation

  /** Latitude within [-90, 90] and longitude within [-180, 180], bounds included. */
  predicate ValidarCoordenadas(lat: real, lng: real) {
    -90.0 <= lat <= 90.0 && -180.0 <= lng <= 180.0
  }

  function Abs(x: real): real { if x < 0.0 then -x else x }

  /** The same test stated on magnitudes: both poles and the antimeridian are valid. */
  lemma ValidarCoordenadasMagnitud(lat: real, lng: real)
    ensures ValidarCoordenadas(lat, lng) <==> Abs(lat) <= 90.0 && Abs(lng) <= 180.0
    ensures ValidarCoordenadas(90.0, 180.0) && ValidarCoordenadas(-90.0, -180.0)
    ensures !ValidarCoordenadas(90.01, 0.0) && !ValidarCoordenadas(0.0, -180.01)
  {
  }

  // ---------------------------------------------------------------------------
  // Units

  /** Metres per unit: `m`, `mi`, and kilometres for `km` and for any other string. */
  function MetrosPorUnidad(unit: string): (r: real)
    ensures r > 0.0
  {
    if unit == "m" then 1.0 else if unit == "mi" then 1609.344 else 1000.0
  }

  /** A distance in metres expressed in `unit`, rounded to two decimals. */
  function ConvertirUnidad(metros: real, unit: string): (r: real)
    ensures metros / MetrosPorUnidad(unit) - 0.005 <= r <= metros / MetrosPorUnidad(unit) + 0.005
    ensures Round2(r) == r
  {
    Round2Close(metros / MetrosPorUnidad(unit));
    Round2Idempotent(metros / MetrosPorUnidad(unit));
    Round2(metros / MetrosPorUnidad(unit))
  }

  /** An unknown unit is treated as kilometres. */
  lemma UnidadDesconocidaEsKm(metros: real, unit: string)
    requires unit != "km" && unit != "m" && unit != "mi"
    ensures ConvertirUnidad(metros, unit) == ConvertirUnidad(metros, "km")
    ensures ConvertirUnidad(metros, "m") == Round2(metros)
  {
    assert metros / 1.0 == metros;
  }

  lemma DivMonotona(a: real, b: real, v: real)
    requires a <= b && v > 0.0
    ensures a / v <= b / v
  {
    assert b / v - a / v == (b - a) / v;
  }

  /** Conversion is monotone: a longer distance never converts to a smaller number. */
  lemma ConvertirUnidadMonotona(a: real, b: real, unit: string)
    requires a <= b
    ensures ConvertirUnidad(a, unit) <= ConvertirUnidad(b, unit)
  {
    var f := MetrosPorUnidad(unit);
    DivMonotona(a, b, f);
    Round2Monotone(a / f, b / f);
  }

  /** A non-negative distance converts to a non-negative number. */
  lemma ConvertirUnidadNoNegativa(metros: real, unit: string)
    requires metros >= 0.0
    ensures ConvertirUnidad(metros, unit) >= 0.0
  {
    ConvertirUnidadMonotona(0.0, metros, unit);
    Round2OfInt(0);
  }

  /** Distance between two coordinates in `unit` (`calcularDistancia`). */
  function CalcularDistancia(h: Haversine, p: Coord, q: Coord, unit: string): (r: real)
    ensures h(p, q) / MetrosPorUnidad(unit) - 0.005 <= r <= h(p, q) / MetrosPorUnidad(unit) + 0.005
    ensures Round2(r) == r
  {
    ConvertirUnidad(h(p, q), unit)
  }

  /** Distance in kilometres, the unit every caller in the dispatch engine uses. */
  function DistanciaKm(h: Haversine, p: Coord, q: Coord): (r: real)
    ensures h(p, q) / 1000.0 - 0.005 <= r <= h(p, q) / 1000.0 + 0.005
    ensures Round2(r) == r
  {
    CalcularDistancia(h, p, q, "km")
  }

  // ---------------------------------------------------------------------------
  // Travel time

  /** Minutes to cover `distanciaKm` at `velocidad` km/h, rounded up; 0 when
      either is not positive. */
  function EstimarTiempoViaje(distanciaKm: real, velocidad: real): (r: int)
    ensures distanciaKm <= 0.0 || velocidad <= 0.0 ==> r == 0
    ensures distanciaKm > 0.0 && velocidad > 0.0 ==>
      r > 0 && r as real >= distanciaKm / velocidad * 60.0 && ((r - 1) as real) < distanciaKm / velocidad * 60.0
  {
    if distanciaKm <= 0.0 || velocidad <= 0.0 then 0
    else Ceil(distanciaKm / velocidad * 60.0)
  }

  /** The default city speed of the estimate. */
  const VelocidadCiudad: real := 40.0

  /** 100 km at 40 km/h is 150 minutes; 40 km at the default speed is one hour. */
  lemma EstimarTiempoViajeEjemplos()
    ensures EstimarTiempoViaje(100.0, 40.0) == 150
    ensures EstimarTiempoViaje(40.0, VelocidadCiudad) == 60
    ensures EstimarTiempoViaje(0.0, VelocidadCiudad) == 0
  {
    assert 100.0 / 40.0 * 60.0 == 150.0;
    assert 40.0 / 40.0 * 60.0 == 60.0;
  }

  /** Going further at the same speed never takes less time. */
  lemma EstimarTiempoViajeMonotono(d1: real, d2: real, v: real)
    requires d1 <= d2
    ensures EstimarTiempoViaje(d1, v) <= EstimarTiempoViaje(d2, v)
  {
    if d1 > 0.0 && v > 0.0 {
      var a, b := EstimarTiempoViaje(d1, v), EstimarTiempoViaje(d2, v);
      DivMonotona(d1, d2, v);
      assert (a - 1) as real < b as real;
    }
  }

  // ---------------------------------------------------------------------------
  // Nearest point

  /** Rounded kilometre distance from `origen` to each point. */
  function Distancias<T>(h: Haversine, origen: Coord, pos: T -> Coord, puntos: seq<T>): (ds: seq<real>)
    ensures |ds| == |puntos|
    ensures forall i :: 0 <= i < |puntos| ==> ds[i] == DistanciaKm(h, origen, pos(puntos[i]))
  {
    seq(|puntos|, i requires 0 <= i < |puntos| => DistanciaKm(h, origen, pos(puntos[i])))
  }

  /** `k` is where a scan with strict `<` from an initial minimum of
      `FloatMax` ends: a value below `FloatMax`, no greater than any other,
      and strictly smaller than every value before it (ties go to the earliest). */
  ghost predicate EsPrimerMinimo(ds: seq<real>, k: nat) {
    && k < |ds|
    && ds[k] < FloatMax
    && (forall j :: 0 <= j < |ds| ==> ds[k] <= ds[j])
    && (forall j :: 0 <= j < k ==> ds[k] < ds[j])
  }

  /** At most one index is the first minimum. */
  lemma PrimerMinimoUnico(ds: seq<real>, k1: nat, k2: nat)
    requires EsPrimerMinimo(ds, k1) && EsPrimerMinimo(ds, k2)
    ensures k1 == k2
  {
  }

  /** The scan of `encontrarPuntoMasCercano` from position `i`, holding the
      best index so far and the current minimum. */
  function Escanear(ds: seq<real>, i: nat, mejor: Option<nat>, minimo: real): (r: Option<nat>)
    requires i <= |ds|
    requires mejor.None? ==> minimo == FloatMax && forall j :: 0 <= j < i ==> ds[j] >= FloatMax
    requires mejor.Some? ==>
      && mejor.value < i && minimo == ds[mejor.value] && minimo < FloatMax
      && (forall j :: 0 <= j < i ==> minimo <= ds[j])
      && (forall j :: 0 <= j < mejor.value ==> minimo < ds[j])
    ensures r.Some? ==> EsPrimerMinimo(ds, r.value)
    ensures r.None? ==> forall j :: 0 <= j < |ds| ==> ds[j] >= FloatMax
    decreases |ds| - i
  {
    if i == |ds| then mejor
    else if ds[i] < minimo then Escanear(ds, i + 1, Some(i), ds[i])
    else Escanear(ds, i + 1, mejor, minimo)
  }

  /** Index of the nearest value, or none when every value is at least `FloatMax`. */
  function IndiceMinimo(ds: seq<real>): (r: Option<nat>)
    ensures r.Some? ==> EsPrimerMinimo(ds, r.value)
    ensures r.None? <==> forall j :: 0 <= j < |ds| ==> ds[j] >= FloatMax
  {
    Escanear(ds, 0, None, FloatMax)
  }

  /** The nearest point to `origen`, annotated with its distance; none for an
      empty list. */
  function EncontrarPuntoMasCercano<T>(h: Haversine, origen: Coord, pos: T -> Coord, puntos: seq<T>)
    : (r: Option<ConDistancia<T>>)
    ensures |puntos| == 0 ==> r.None?
    ensures r.None? <==> forall j :: 0 <= j < |puntos| ==> DistanciaKm(h, origen, pos(puntos[j])) >= FloatMax
    ensures r.Some? ==> exists k :: (
      && 0 <= k < |puntos|
      && EsPrimerMinimo(Distancias(h, origen, pos, puntos), k)
      && r.value == ConDistancia(puntos[k], DistanciaKm(h, origen, pos(puntos[k]))))
  {
    if |puntos| == 0 then None
    else
      var ds := Distancias(h, origen, pos, puntos);
      match IndiceMinimo(ds)
      case None => None
      case Some(k) =>
        Round2Idempotent(h(origen, pos(puntos[k])) / 1000.0);
        Some(ConDistancia(puntos[k], Round2(ds[k])))
  }

  /** The point returned is one of the inputs, annotated with its own distance,
      and no input point is strictly closer. */
  lemma MasCercanoEsMinimo<T>(h: Haversine, origen: Coord, pos: T -> Coord, puntos: seq<T>)
    requires EncontrarPuntoMasCercano(h, origen, pos, puntos).Some?
    ensures var c := EncontrarPuntoMasCercano(h, origen, pos, puntos).value;
      && c.punto in puntos
      && c.distanciaKm == DistanciaKm(h, origen, pos(c.punto))
      && forall q :: q in puntos ==> c.distanciaKm <= DistanciaKm(h, origen, pos(q))
  {
    var ds := Distancias(h, origen, pos, puntos);
    var c := EncontrarPuntoMasCercano(h, origen, pos, puntos).value;
    var k :| 0 <= k < |puntos| && EsPrimerMinimo(ds, k) && c == ConDistancia(puntos[k], ds[k]);
    forall q | q in puntos ensures c.distanciaKm <= DistanciaKm(h, origen, pos(q)) {
      var j :| 0 <= j < |puntos| && puntos[j] == q;
      assert ds[k] <= ds[j];
    }
  }

  // ---------------------------------------------------------------------------
  // Sorting by distance

  /** Every point paired with its rounded distance, in input order. */
  function Anotar<T>(h: Haversine, origen: Coord, pos: T -> Coord, puntos: seq<T>): (r: seq<ConDistancia<T>>)
    ensures |r| == |puntos|
    ensures forall i :: 0 <= i < |r| ==> r[i].punto == puntos[i]
    ensures forall i :: 0 <= i < |r| ==> r[i].distanciaKm == DistanciaKm(h, origen, pos(puntos[i]))
  {
    seq(|puntos|, i requires 0 <= i < |puntos| => ConDistancia(puntos[i], DistanciaKm(h, origen, pos(puntos[i]))))
  }

  /** The comparator of the sort: `distancia_km` of `a` not above that of `b`. */
  function PorDistancia<T>(): (T1: (ConDistancia<T>, ConDistancia<T>) -> bool)
  {
    (a: ConDistancia<T>, b: ConDistancia<T>) => a.distanciaKm <= b.distanciaKm
  }

  lemma PorDistanciaPreorden<T(!new)>()
    ensures Total(PorDistancia<T>()) && Transitive(PorDistancia<T>())
  {
  }

  /** The points with their distances, nearest first (`ordenarPorDistancia`). */
  function OrdenarPorDistancia<T(==,!new)>(h: Haversine, origen: Coord, pos: T -> Coord, puntos: seq<T>)
    : (r: seq<ConDistancia<T>>)
    ensures |r| == |puntos|
    ensures multiset(r) == multiset(Anotar(h, origen, pos, puntos))
    ensures forall i :: 0 <= i < |r| ==> r[i].punto in puntos
    ensures forall i :: 0 <= i < |r| ==> r[i].distanciaKm == DistanciaKm(h, origen, pos(r[i].punto))
    ensures forall i, j :: 0 <= i < j < |r| ==> r[i].distanciaKm <= r[j].distanciaKm
  {
    PorDistanciaPreorden<T>();
    var a := Anotar(h, origen, pos, puntos);
    var r := SortBy(PorDistancia<T>(), a);
    forall i | 0 <= i < |r|
      ensures r[i].punto in puntos
      ensures r[i].distanciaKm == DistanciaKm(h, origen, pos(r[i].punto))
    {
      assert r[i] in multiset(a);
      var k :| 0 <= k < |a| && a[k] == r[i];
    }
    assert forall i, j :: 0 <= i < j < |r| ==> PorDistancia<T>()(r[i], r[j]);
    r
  }

  /** The entries at distance `d`. */
  function AMismaDistancia<T>(d: real): ConDistancia<T> -> bool {
    (c: ConDistancia<T>) => c.distanciaKm == d
  }

  /** The sort is stable, as PHP's `usort` is: points at the same distance
      keep their input order. */
  lemma OrdenarEsEstable<T(!new)>(h: Haversine, origen: Coord, pos: T -> Coord, puntos: seq<T>, d: real)
    ensures Filter(AMismaDistancia(d), OrdenarPorDistancia(h, origen, pos, puntos))
         == Filter(AMismaDistancia(d), Anotar(h, origen, pos, puntos))
  {
    var le := PorDistancia<T>();
    var a := Anotar(h, origen, pos, puntos);
    var r := OrdenarPorDistancia(h, origen, pos, puntos);
    if |puntos| > 0 {
      var c := ConDistancia(puntos[0], d);
      PorDistanciaPreorden<T>();
      assert r == SortBy(le, a);
      SortByEstable(le, a, c);
      FilterIgual(Empata(le, c), AMismaDistancia(d), r);
      FilterIgual(Empata(le, c), AMismaDistancia(d), a);
    }
  }

  /** Dropping the distances from the sorted list gives back a permutation of the input. */
  lemma OrdenarEsPermutacion<T(!new)>(h: Haversine, origen: Coord, pos: T -> Coord, puntos: seq<T>)
    ensures multiset(Map((c: ConDistancia<T>) => c.punto, OrdenarPorDistancia(h, origen, pos, puntos)))
         == multiset(puntos)
  {
    var f := (c: ConDistancia<T>) => c.punto;
    var a := Anotar(h, origen, pos, puntos);
    MapPermutation(f, OrdenarPorDistancia(h, origen, pos, puntos), a);
    assert Map(f, a) == puntos;
  }

  /** The head of the sorted list is exactly as far as the nearest point. */
  lemma OrdenarEmpiezaPorMasCercano<T(!new)>(h: Haversine, origen: Coord, pos: T -> Coord, puntos: seq<T>)
    requires EncontrarPuntoMasCercano(h, origen, pos, puntos).Some?
    ensures |OrdenarPorDistancia(h, origen, pos, puntos)| > 0
    ensures OrdenarPorDistancia(h, origen, pos, puntos)[0].distanciaKm
         == EncontrarPuntoMasCercano(h, origen, pos, puntos).value.distanciaKm
  {
    var r := OrdenarPorDistancia(h, origen, pos, puntos);
    var c := EncontrarPuntoMasCercano(h, origen, pos, puntos).value;
    MasCercanoEsMinimo(h, origen, pos, puntos);
    var a := Anotar(h, origen, pos, puntos);
    var k :| 0 <= k < |puntos| && puntos[k] == c.punto;
    assert a[k] in multiset(r);
    var m :| 0 <= m < |r| && r[m] == a[k];
    assert r[0].distanciaKm <= r[m].distanciaKm;
    assert r[0].punto in puntos;
  }

  /** A contiguous slice of a list sorted by distance is still sorted, and
      keeps only items of the list. */
  lemma SliceOrdenado<T>(o: seq<ConDistancia<T>>, a: nat, b: nat)
    requires a <= b <= |o|
    requires forall i, j :: 0 <= i < j < |o| ==> o[i].distanciaKm <= o[j].distanciaKm
    ensures forall i, j :: 0 <= i < j < b - a ==> o[a..b][i].distanciaKm <= o[a..b][j].distanciaKm
    ensures forall i :: 0 <= i < b - a ==> o[a..b][i] in o
  {
    forall i, j | 0 <= i < j < b - a ensures o[a..b][i].distanciaKm <= o[a..b][j].distanciaKm {
      assert o[a..b][i] == o[a + i] && o[a..b][j] == o[a + j];
    }
    forall i | 0 <= i < b - a ensures o[a..b][i] in o {
      assert o[a..b][i] == o[a + i];
    }
  }

  // ---------------------------------------------------------------------------
  // Route length

  /** Sum of the distances of consecutive segments, each rounded in `unit`. */
  function Tramos(h: Haversine, puntos: seq<Coord>, unit: string): real
    decreases |puntos|
  {
    if |puntos| < 2 then 0.0
    else CalcularDistancia(h, puntos[0], puntos[1], unit) + Tramos(h, puntos[1..], unit)
  }

  /** Route length (`calcularDistanciaRuta`): 0 for fewer than two points,
      otherwise the rounded sum of the segment distances. */
  function CalcularDistanciaRuta(h: Haversine, puntos: seq<Coord>, unit: string): (r: real)
    ensures |puntos| < 2 ==> r == 0.0
    ensures |puntos| >= 2 ==> r == Round2(Tramos(h, puntos, unit))
    ensures Round2(r) == r
  {
    Round2OfInt(0);
    Round2Idempotent(Tramos(h, puntos, unit));
    if |puntos| < 2 then 0.0 else Round2(Tramos(h, puntos, unit))
  }

  /** A route of two points is as long as the single segment between them. */
  lemma RutaDeDosPuntos(h: Haversine, p: Coord, q: Coord, unit: string)
    ensures CalcularDistanciaRuta(h, [p, q], unit) == CalcularDistancia(h, p, q, unit)
  {
    assert [p, q][1..] == [q];
    assert Tramos(h, [q], unit) == 0.0;
  }

  /** Joining two routes at a shared point adds their segment sums. */
  lemma {:induction false} TramosConcatenados(h: Haversine, a: seq<Coord>, x: Coord, b: seq<Coord>, unit: string)
    ensures Tramos(h, a + [x] + b, unit) == Tramos(h, a + [x], unit) + Tramos(h, [x] + b, unit)
    decreases |a|
  {
    if |a| == 0 {
      assert a + [x] + b == [x] + b;
      assert a + [x] == [x];
    } else {
      TramosConcatenados(h, a[1..], x, b, unit);
      assert (a + [x] + b)[1..] == a[1..] + [x] + b;
      assert (a + [x])[1..] == a[1..] + [x];
      if |a| == 1 {
        assert (a + [x] + b)[1] == x;
      }
    }
  }

  /** Segments of a non-negative distance give a non-negative route. */
  lemma {:induction false} TramosNoNegativos(h: Haversine, puntos: seq<Coord>, unit: string)
    requires forall p, q :: h(p, q) >= 0.0
    ensures Tramos(h, puntos, unit) >= 0.0
    decreases |puntos|
  {
    if |puntos| >= 2 {
      ConvertirUnidadNoNegativa(h(puntos[0], puntos[1]), unit);
      TramosNoNegativos(h, puntos[1..], unit);
    }
  }

  lemma RutaNoNegativa(h: Haversine, puntos: seq<Coord>, unit: string)
    requires forall p, q :: h(p, q) >= 0.0
    ensures CalcularDistanciaRuta(h, puntos, unit) >= 0.0
  {
    TramosNoNegativos(h, puntos, unit);
    Round2Monotone(0.0, Tramos(h, puntos, unit));
    Round2OfInt(0);
  }

  // ---------------------------------------------------------------------------
  // Radius and midpoint

  /** The destination is within `radioKm` of the origin, boundary included. */
  predicate EstaDentroDelRadio(h: Haversine, origen: Coord, destino: Coord, radioKm: real) {
    DistanciaKm(h, origen, destino) <= radioKm
  }

  /** A point within a radius is within every larger radius. */
  lemma RadioMonotono(h: Haversine, origen: Coord, destino: Coord, r1: real, r2: real)
    requires r1 <= r2 && EstaDentroDelRadio(h, origen, destino, r1)
    ensures EstaDentroDelRadio(h, origen, destino, r2)
  {
  }

  /** With a zero self-distance, the origin lies within any non-negative radius,
      and within radius 0 exactly. */
  lemma OrigenDentroDelRadio(h: Haversine, origen: Coord, radioKm: real)
    requires h(origen, origen) == 0.0
    ensures EstaDentroDelRadio(h, origen, origen, radioKm) <==> radioKm >= 0.0
  {
    Round2OfInt(0);
    assert 0.0 / 1000.0 == 0.0;
  }

  /** The component-wise mean of two coordinates. */
  function CalcularPuntoMedio(a: Coord, b: Coord): (r: Coord)
    ensures r.lat - a.lat == b.lat - r.lat
    ensures r.lng - a.lng == b.lng - r.lng
  {
    Coord((a.lat + b.lat) / 2.0, (a.lng + b.lng) / 2.0)
  }

  /** The midpoint does not depend on the order of its arguments, and the
      midpoint of two valid coordinates is valid. */
  lemma PuntoMedioSimetricoYValido(a: Coord, b: Coord)
    ensures CalcularPuntoMedio(a, b) == CalcularPuntoMedio(b, a)
    ensures ValidarCoordenadas(a.lat, a.lng) && ValidarCoordenadas(b.lat, b.lng) ==>
      var m := CalcularPuntoMedio(a, b); ValidarCoordenadas(m.lat, m.lng)
  {
  }
}
