/** The pure parts of the arrival-time predictor: the feature vector, the
    decision order "cache, then remote model, then fallback formula", the
    hour-of-day fallback formula and the batch variant.

    The clock, the cache store and the remote model are parameters: the hour
    and weekday of the request, the cache contents (absent when the cache
    cannot be reached) and the outcome of the remote call. */
module Ml {
  import opened Wrappers
  import opened Numeric
  import opened Enums
  import Gps

  /** The feature vector sent to the model; it is also the cache key. */
  datatype Features = Features(
    distancia: real,
    horaDia: int,
    diaSemana: int,
    tipoAmbulancia: int,
    traficoEstimado: real)

  /** Raised when the remote model fails and the fallback is disabled. */
  datatype MlError = FallbackDeshabilitado

  /** Outcome of the remote `/predict` call: a successful response carries the
      `tiempo_estimado` field (absent if the body lacks it); any other status or
      a transport error is a failure. */
  datatype Remoto = Exito(tiempoEstimado: Option<real>) | Fallo

  /** Outcome of the remote `/predict/batch` call. */
  datatype RemotoBatch = ExitoBatch(resultados: seq<int>) | FalloBatch

  // ---------------------------------------------------------------------------
  // Features

  /** The numeric code of a vehicle tier; unknown strings count as `intermedia`. */
  function TipoAmbulanciaCodigo(tipo: string): (r: int)
    ensures 0 <= r <= 3
    ensures ParseTipoAmbulancia(tipo).None? ==> r == 1
  {
    if tipo == "basica" then 0
    else if tipo == "intermedia" then 1
    else if tipo == "avanzada" then 2
    else if tipo == "uci" then 3
    else 1
  }

  /** The codes follow the tiers in increasing order of equipment, one code per tier. */
  lemma TipoAmbulanciaCodigoOrden()
    ensures TipoAmbulanciaCodigo(Basica.Name()) == 0
    ensures TipoAmbulanciaCodigo(Intermedia.Name()) == 1
    ensures TipoAmbulanciaCodigo(Avanzada.Name()) == 2
    ensures TipoAmbulanciaCodigo(Uci.Name()) == 3
    ensures forall t1: TipoAmbulancia, t2: TipoAmbulancia ::
      TipoAmbulanciaCodigo(t1.Name()) == TipoAmbulanciaCodigo(t2.Name()) ==> t1 == t2
  {
  }

  function PrepararFeatures(distanciaKm: real, tipo: string, trafico: real, hora: int, diaSemana: int)
    : (f: Features)
    ensures f.distancia == distanciaKm && f.traficoEstimado == trafico
    ensures f.horaDia == hora && f.diaSemana == diaSemana
    ensures f.tipoAmbulancia == TipoAmbulanciaCodigo(tipo)
  {
    Features(distanciaKm, hora, diaSemana, TipoAmbulanciaCodigo(tipo), trafico)
  }

  // ---------------------------------------------------------------------------
  // Fallback formula

  /** Average speed in km/h by hour of day; the first matching band wins. */
  function VelocidadFallback(hora: int): (v: int)
    ensures v == 25 || v == 30 || v == 40 || v == 50
  {
    if 7 <= hora <= 9 then 25
    else if 12 <= hora <= 14 then 30
    else if 18 <= hora <= 20 then 25
    else if hora >= 22 || hora <= 5 then 50
    else 40
  }

  /** The speed of each hour of the day, from midnight. */
  const TablaVelocidades: seq<int> :=
    [50, 50, 50, 50, 50, 50, 40, 25, 25, 25, 40, 40,
     30, 30, 30, 40, 40, 40, 25, 25, 25, 40, 50, 50]

  /** The banded definition agrees with the hour-by-hour table. */
  lemma VelocidadFallbackTabla()
    ensures |TablaVelocidades| == 24
    ensures forall hora :: 0 <= hora < 24 ==> VelocidadFallback(hora) == TablaVelocidades[hora]
  {
  }

  /** Minutes for `distanciaKm` at the speed of `hora`, rounded up; an error
      when the fallback is disabled. */
  function FallbackEstimacion(distanciaKm: real, hora: int, usarFallback: bool): (r: Result<int, MlError>)
    ensures r.Failure? <==> !usarFallback
    ensures r.Success? ==>
      var t := distanciaKm / (VelocidadFallback(hora) as real) * 60.0;
      t <= r.value as real < t + 1.0
    ensures r.Success? && distanciaKm > 0.0 ==> r.value > 0
  {
    if !usarFallback then Failure(FallbackDeshabilitado)
    else Success(Ceil(distanciaKm / (VelocidadFallback(hora) as real) * 60.0))
  }

  /** For a positive distance the fallback is the travel-time estimate at the
      hour's speed; at the default-speed hours it coincides with the estimate
      used when a dispatch is created. */
  lemma FallbackComoEstimacion(distanciaKm: real, hora: int)
    requires distanciaKm > 0.0
    ensures FallbackEstimacion(distanciaKm, hora, true)
         == Success(Gps.EstimarTiempoViaje(distanciaKm, VelocidadFallback(hora) as real))
    ensures VelocidadFallback(hora) == 40 ==>
      FallbackEstimacion(distanciaKm, hora, true) == Success(Gps.EstimarTiempoViaje(distanciaKm, Gps.VelocidadCiudad))
  {
  }

  /** Slower hours never give a shorter estimate than faster ones. */
  lemma FallbackMasLentoTardaMas(distanciaKm: real, h1: int, h2: int)
    requires distanciaKm > 0.0 && VelocidadFallback(h1) <= VelocidadFallback(h2)
    ensures FallbackEstimacion(distanciaKm, h2, true).value <= FallbackEstimacion(distanciaKm, h1, true).value
  {
    var v1, v2 := VelocidadFallback(h1) as real, VelocidadFallback(h2) as real;
    var t1, t2 := distanciaKm / v1 * 60.0, distanciaKm / v2 * 60.0;
    assert t2 <= t1 by {
      assert t1 * v1 == distanciaKm * 60.0;
      assert t2 * v2 == distanciaKm * 60.0;
      assert t1 * v2 >= t1 * v1;
    }
    var a, b := FallbackEstimacion(distanciaKm, h1, true).value, FallbackEstimacion(distanciaKm, h2, true).value;
    assert (b - 1) as real < a as real;
  }

  // ---------------------------------------------------------------------------
  // Single prediction

  /** `predecirTiempoLlegada`: a cached value wins, then a successful remote
      answer (cached for later calls), then the fallback for the distance.
      Returns the minutes and the cache after the call. */
  function PredecirTiempoLlegada(
    distanciaKm: real, tipo: string, trafico: real, hora: int, diaSemana: int,
    cache: Option<map<Features, real>>, remoto: Remoto, usarFallback: bool)
    : (r: (Result<int, MlError>, Option<map<Features, real>>))
    ensures var f := PrepararFeatures(distanciaKm, tipo, trafico, hora, diaSemana);
      && (cache.Some? && f in cache.value ==> r == (Success(TruncInt(cache.value[f])), cache))
      && (!(cache.Some? && f in cache.value) && remoto.Exito? ==>
            r.0 == Success(TruncInt(remoto.tiempoEstimado.GetOr(0.0))))
      && (!(cache.Some? && f in cache.value) && remoto.Fallo? ==>
            r == (FallbackEstimacion(distanciaKm, hora, usarFallback), cache))
    ensures r.1.None? <==> cache.None?
    ensures r.1.Some? ==> forall g :: (
      g in cache.value && g != PrepararFeatures(distanciaKm, tipo, trafico, hora, diaSemana)
      ==> g in r.1.value && r.1.value[g] == cache.value[g])
  {
    var f := PrepararFeatures(distanciaKm, tipo, trafico, hora, diaSemana);
    if cache.Some? && f in cache.value then (Success(TruncInt(cache.value[f])), cache)
    else match remoto
      case Exito(t) =>
        var cache' := if cache.Some? && t.Some? then Some(cache.value[f := t.value]) else cache;
        (Success(TruncInt(t.GetOr(0.0))), cache')
      case Fallo => (FallbackEstimacion(distanciaKm, hora, usarFallback), cache)
  }

  /** After a successful remote answer, the same request is served from the
      cache with the same number of minutes, whatever the remote does then. */
  lemma SegundaLlamadaDesdeCache(
    distanciaKm: real, tipo: string, trafico: real, hora: int, diaSemana: int,
    cache: map<Features, real>, t: real, remoto2: Remoto, usarFallback: bool)
    requires PrepararFeatures(distanciaKm, tipo, trafico, hora, diaSemana) !in cache
    ensures var (r1, c1) := PredecirTiempoLlegada(distanciaKm, tipo, trafico, hora, diaSemana,
                                                 Some(cache), Exito(Some(t)), usarFallback);
      var (r2, c2) := PredecirTiempoLlegada(distanciaKm, tipo, trafico, hora, diaSemana,
                                          c1, remoto2, usarFallback);
      r2 == r1 && c2 == c1
  {
  }

  /** With the fallback disabled, a failed remote call without a cached value is an error. */
  lemma SinFallbackFallaSinCache(
    distanciaKm: real, tipo: string, trafico: real, hora: int, diaSemana: int,
    cache: Option<map<Features, real>>)
    requires !(cache.Some? && PrepararFeatures(distanciaKm, tipo, trafico, hora, diaSemana) in cache.value)
    ensures PredecirTiempoLlegada(distanciaKm, tipo, trafico, hora, diaSemana, cache, Fallo, false).0.Failure?
  {
  }

  // ---------------------------------------------------------------------------
  // Batch prediction

  /** `predecirBatch`: the remote results on success; otherwise the fallback of
      each item's distance, in order, at the hour the clock shows when that
      item's fallback runs (`horas`, one reading per item). The first item's
      fallback error aborts the whole batch. */
  function PredecirBatch(items: seq<Features>, remoto: RemotoBatch, horas: seq<int>, usarFallback: bool)
    : (r: Result<seq<int>, MlError>)
    requires |horas| == |items|
    ensures remoto.ExitoBatch? ==> r == Success(remoto.resultados)
    ensures remoto.FalloBatch? ==> (r.Failure? <==> !usarFallback && |items| > 0)
    ensures remoto.FalloBatch? && r.Success? ==>
      && |r.value| == |items|
      && forall i :: 0 <= i < |items| ==> Success(r.value[i]) == FallbackEstimacion(items[i].distancia, horas[i], true)
  {
    match remoto
    case ExitoBatch(resultados) => Success(resultados)
    case FalloBatch => FallbackLista(items, horas, usarFallback)
  }

  /** The fallback applied to every item at its own hour, stopping at the
      first error. */
  function FallbackLista(items: seq<Features>, horas: seq<int>, usarFallback: bool): (r: Result<seq<int>, MlError>)
    requires |horas| == |items|
    ensures r.Failure? <==> !usarFallback && |items| > 0
    ensures r.Success? ==>
      && |r.value| == |items|
      && forall i :: 0 <= i < |items| ==> Success(r.value[i]) == FallbackEstimacion(items[i].distancia, horas[i], true)
  {
    if |items| == 0 then Success([])
    else match FallbackEstimacion(items[0].distancia, horas[0], usarFallback)
      case Failure(e) => Failure(e)
      case Success(m) =>
        match FallbackLista(items[1..], horas[1..], usarFallback)
        case Failure(e) => Failure(e)
        case Success(ms) => Success([m] + ms)
  }

  /** Item by item, the failed batch gives what a failed single call would
      for the same distance at the same hour. */
  lemma BatchComoLlamadasSueltas(items: seq<Features>, horas: seq<int>, i: nat)
    requires |horas| == |items| && i < |items|
    ensures var b := PredecirBatch(items, FalloBatch, horas, true);
      b.Success? && Success(b.value[i]) ==
        PredecirTiempoLlegada(items[i].distancia, "intermedia", 0.5, horas[i], 0, None, Fallo, true).0
  {
  }
}
