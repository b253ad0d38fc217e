/** The read-only GraphQL queries: the windowed dispatch statistics with their
    completion rate, the recent dispatches, the filtered dispatch listing and
    the paginated crew listing. */
module Consultas {
  import opened Wrappers
  import opened Enums
  import opened Records
  import opened Seqs
  import Numeric
  import Personales
  import ControladorDespachos

  // ---------------------------------------------------------------------------
  // Arguments

  /** A GraphQL argument: left out of the request (the schema's default
      value applies, when there is one), sent as `null`, or given. Only a
      left-out argument is missing from `$args`. */
  datatype Argumento<T> = Omitido | Nulo | Dado(v: T) {
    /** `$args[clave] ?? null` for an argument without a schema default. */
    function Valor(): (r: Option<T>)
      ensures r.Some? <==> Dado?
      ensures r.Some? ==> r.value == v
    {
      if Dado? then Some(v) else None
    }
  }

  /** The integer arguments of the queries. */
  type Arg = Argumento<int>

  /** The entry the resolver finds in `$args`: the schema default when the
      argument was left out, nothing when it was `null`. */
  function Recibido(a: Arg, defecto: int): (r: Option<int>)
    ensures r.None? <==> a.Nulo?
  {
    match a
    case Omitido => Some(defecto)
    case Nulo => None
    case Dado(v) => Some(v)
  }

  /** `$args[clave] ?? defecto` for an argument whose schema default is `defecto`. */
  function ConDefecto(a: Arg, defecto: int): (r: int)
    ensures a.Dado? ==> r == a.v
    ensures !a.Dado? ==> r == defecto
  {
    Recibido(a, defecto).GetOr(defecto)
  }

  // ---------------------------------------------------------------------------
  // Time window

  /** `now()->subHours(horas)`, on timestamps counted in minutes. */
  function Desde(ahora: int, horas: int): int {
    ahora - horas * 60
  }

  /** `where('created_at', '>=', desde)` as a row test. */
  function EnVentana(desde: int): Despacho -> bool {
    (d: Despacho) => d.creadoEn >= desde
  }

  /** The dispatches created at or after `desde`, in table order. */
  function Ventana(db: Db, desde: int): (r: seq<Despacho>)
    ensures forall d :: d in r <==> d in db.despachos && d.creadoEn >= desde
    ensures forall d :: multiset(r)[d] == if d.creadoEn >= desde then multiset(db.despachos)[d] else 0
  {
    var r := Filter(EnVentana(desde), db.despachos);
    assert forall d :: multiset(r)[d] == if d.creadoEn >= desde then multiset(db.despachos)[d] else 0 by {
      forall d ensures multiset(r)[d] == if d.creadoEn >= desde then multiset(db.despachos)[d] else 0 {
        FilterMultiset(EnVentana(desde), db.despachos, d);
      }
    }
    r
  }

  /** A filter that accepts whatever a narrower one accepts keeps at least as many rows. */
  lemma {:induction false} FilterMonotono<T(!new)>(p: T -> bool, q: T -> bool, s: seq<T>)
    requires forall x :: p(x) ==> q(x)
    ensures |Filter(p, s)| <= |Filter(q, s)|
  {
    if |s| > 0 {
      FilterMonotono(p, q, s[1..]);
    }
  }

  /** A longer look-back never sees fewer dispatches. */
  lemma VentanaMonotona(db: Db, ahora: int, h1: int, h2: int)
    requires h1 <= h2
    ensures |Ventana(db, Desde(ahora, h1))| <= |Ventana(db, Desde(ahora, h2))|
  {
    FilterMonotono(EnVentana(Desde(ahora, h1)), EnVentana(Desde(ahora, h2)), db.despachos);
  }

  /** A dispatch created before the window does not enter it. */
  lemma VentanaSinAntiguo(db: Db, desde: int, d: Despacho)
    requires d.creadoEn < desde
    ensures Ventana(db.(despachos := db.despachos + [d]), desde) == Ventana(db, desde)
  {
    FilterAppend(EnVentana(desde), db.despachos, [d]);
    assert Filter(EnVentana(desde), [d]) == [];
  }

  // ---------------------------------------------------------------------------
  // Statistics

  /** The figures `estadisticasDespachos` returns. */
  datatype Resumen = Resumen(
    total: nat,
    completados: nat, pendientes: nat, enCamino: nat, enSitio: nat, cancelados: nat,
    critica: nat, alta: nat, media: nat, baja: nat,
    tasaCompletacion: real)

  function DeEstado(e: EstadoDespacho): Despacho -> bool {
    (d: Despacho) => d.estado == e
  }

  function DePrioridad(p: Prioridad): Despacho -> bool {
    (d: Despacho) => d.prioridad == p
  }

  /** `where('estado', e)->count()` over `v`. */
  function PorEstado(v: seq<Despacho>, e: EstadoDespacho): nat {
    |Filter(DeEstado(e), v)|
  }

  /** `where('prioridad', p)->count()` over `v`. */
  function PorPrioridad(v: seq<Despacho>, p: Prioridad): nat {
    |Filter(DePrioridad(p), v)|
  }

  /** A state count of the window is the count of the single query with
      both `where` clauses, as the cloned builder runs it. */
  lemma PorEstadoComoConsulta(db: Db, desde: int, e: EstadoDespacho)
    ensures PorEstado(Ventana(db, desde), e)
         == |Filter((d: Despacho) => d.creadoEn >= desde && d.estado == e, db.despachos)|
  {
    FilterFilter(DeEstado(e), EnVentana(desde), (d: Despacho) => d.creadoEn >= desde && d.estado == e, db.despachos);
  }

  /** Likewise for a priority count. */
  lemma PorPrioridadComoConsulta(db: Db, desde: int, p: Prioridad)
    ensures PorPrioridad(Ventana(db, desde), p)
         == |Filter((d: Despacho) => d.creadoEn >= desde && d.prioridad == p, db.despachos)|
  {
    FilterFilter(DePrioridad(p), EnVentana(desde), (d: Despacho) => d.creadoEn >= desde && d.prioridad == p, db.despachos);
  }

  /** Every dispatch has exactly one of the seven states, so the seven counts
      add up to the number of rows. */
  lemma {:induction false} EstadosParticionan(v: seq<Despacho>)
    ensures PorEstado(v, Pendiente) + PorEstado(v, Asignado) + PorEstado(v, EnCamino) + PorEstado(v, EnSitio)
      + PorEstado(v, Trasladando) + PorEstado(v, Completado) + PorEstado(v, Cancelado) == |v|
  {
    if |v| > 0 {
      EstadosParticionan(v[1..]);
    }
  }

  /** Every dispatch has exactly one of the four priorities. */
  lemma {:induction false} PrioridadesParticionan(v: seq<Despacho>)
    ensures PorPrioridad(v, Critica) + PorPrioridad(v, Alta) + PorPrioridad(v, Media) + PorPrioridad(v, Baja) == |v|
  {
    if |v| > 0 {
      PrioridadesParticionan(v[1..]);
    }
  }

  /** Rounding a percentage leaves it a percentage. */
  lemma Round2Porcentaje(x: real)
    ensures 0.0 <= x <= 100.0 ==> 0.0 <= Numeric.Round2(x) <= 100.0
  {
    if 0.0 <= x <= 100.0 {
      Numeric.Round2Monotone(0.0, x);
      Numeric.Round2Monotone(x, 100.0);
      Numeric.Round2OfInt(0);
      Numeric.Round2OfInt(100);
    }
  }

  /** `round($completados / $total * 100, 2)` when there is at least one
      dispatch, otherwise 0. */
  function Tasa(completados: nat, total: nat): (r: real)
    ensures total == 0 ==> r == 0.0
    ensures total > 0 && completados <= total ==> 0.0 <= r <= 100.0
    ensures total > 0 && completados == total ==> r == 100.0
    ensures total > 0 ==>
      (completados as real) / (total as real) * 100.0 - 0.005 <= r <= (completados as real) / (total as real) * 100.0 + 0.005
  {
    if total > 0 then
      TasaCotas(completados, total);
      Numeric.Round2((completados as real) / (total as real) * 100.0)
    else 0.0
  }

  /** The rounded rate of a positive total: within half a cent of the exact
      rate, a percentage when no more than all completed, and exactly 100
      when all did. */
  lemma TasaCotas(completados: nat, total: nat)
    requires total > 0
    ensures var x := (completados as real) / (total as real) * 100.0;
      && x - 0.005 <= Numeric.Round2(x) <= x + 0.005
      && (completados <= total ==> 0.0 <= Numeric.Round2(x) <= 100.0)
      && (completados == total ==> Numeric.Round2(x) == 100.0)
  {
    var x := (completados as real) / (total as real) * 100.0;
    Numeric.Round2Close(x);
    if completados <= total {
      Cociente(completados, total);
      Round2Porcentaje(x);
    }
    if completados == total {
      Unidad(total);
      assert x == 100 as real;
      Numeric.Round2OfInt(100);
    }
  }

  /** A positive total divided by itself is 1. */
  lemma Unidad(total: nat)
    requires total > 0
    ensures (total as real) / (total as real) == 1.0
  {
    var t := total as real;
    var q := t / t;
    assert q * t == t;
    assert (q - 1.0) * t == 0.0;
  }

  /** A share of a positive total is between 0 and 1. */
  lemma Cociente(parte: nat, total: nat)
    requires 0 < total && parte <= total
    ensures 0.0 <= (parte as real) / (total as real) <= 1.0
  {
    var q := (parte as real) / (total as real);
    assert q * (total as real) == parte as real;
  }

  /** The rates the statistics tests pin: 7 of 10 is 70 and none completed is 0. */
  lemma TasaEjemplos(n: nat)
    ensures Tasa(7, 10) == 70.0
    ensures Tasa(0, n) == 0.0
  {
    assert (7 as real) / (10 as real) * 100.0 == 70 as real;
    Numeric.Round2OfInt(70);
    if n > 0 {
      assert (0 as real) / (n as real) * 100.0 == 0 as real;
      Numeric.Round2OfInt(0);
    }
  }

  /** `estadisticasDespachos(horas)`: the counts of the dispatches created in
      the last `horas` hours (24 unless given), by state and by priority, and
      the completion rate. */
  function Estadisticas(db: Db, horas: Arg, ahora: int): (r: Resumen)
    ensures var v := Ventana(db, Desde(ahora, ConDefecto(horas, 24)));
      && r.total == |v|
      && r.completados == PorEstado(v, Completado) && r.pendientes == PorEstado(v, Pendiente)
      && r.enCamino == PorEstado(v, EnCamino) && r.enSitio == PorEstado(v, EnSitio)
      && r.cancelados == PorEstado(v, Cancelado)
      && r.critica == PorPrioridad(v, Critica) && r.alta == PorPrioridad(v, Alta)
      && r.media == PorPrioridad(v, Media) && r.baja == PorPrioridad(v, Baja)
      && r.tasaCompletacion == Tasa(r.completados, r.total)
    ensures r.total <= |db.despachos|
    ensures r.completados + r.pendientes + r.enCamino + r.enSitio + r.cancelados <= r.total
    ensures r.critica + r.alta + r.media + r.baja == r.total
    ensures 0.0 <= r.tasaCompletacion <= 100.0
    ensures r.total == 0 ==> r.tasaCompletacion == 0.0
    ensures r.total > 0 && r.completados == r.total ==> r.tasaCompletacion == 100.0
  {
    var v := Ventana(db, Desde(ahora, ConDefecto(horas, 24)));
    EstadosParticionan(v);
    PrioridadesParticionan(v);
    var c := PorEstado(v, Completado);
    Resumen(|v|,
      c, PorEstado(v, Pendiente), PorEstado(v, EnCamino), PorEstado(v, EnSitio), PorEstado(v, Cancelado),
      PorPrioridad(v, Critica), PorPrioridad(v, Alta), PorPrioridad(v, Media), PorPrioridad(v, Baja),
      Tasa(c, |v|))
  }

  /** The five reported states leave out exactly the dispatches that are
      `asignado` or `trasladando`. */
  lemma EstadisticasOmitenAsignadosYTraslados(db: Db, horas: Arg, ahora: int)
    ensures var r := Estadisticas(db, horas, ahora);
      var v := Ventana(db, Desde(ahora, ConDefecto(horas, 24)));
      r.completados + r.pendientes + r.enCamino + r.enSitio + r.cancelados
        + PorEstado(v, Asignado) + PorEstado(v, Trasladando) == r.total
  {
    EstadosParticionan(Ventana(db, Desde(ahora, ConDefecto(horas, 24))));
  }

  /** Asking for a longer look-back never lowers the total. */
  lemma EstadisticasMonotonas(db: Db, ahora: int, h1: int, h2: int)
    requires h1 <= h2
    ensures Estadisticas(db, Dado(h1), ahora).total <= Estadisticas(db, Dado(h2), ahora).total
  {
    VentanaMonotona(db, ahora, h1, h2);
  }

  /** The statistics only count dispatches created inside the window: one
      created before it changes nothing. */
  lemma EstadisticasIgnoranAntiguos(db: Db, horas: Arg, ahora: int, d: Despacho)
    requires d.creadoEn < Desde(ahora, ConDefecto(horas, 24))
    ensures Estadisticas(db.(despachos := db.despachos + [d]), horas, ahora) == Estadisticas(db, horas, ahora)
  {
    VentanaSinAntiguo(db, Desde(ahora, ConDefecto(horas, 24)), d);
  }

  // ---------------------------------------------------------------------------
  // Newest-first listings with a limit

  /** SQL `LIMIT` on a listing sorted by `le` keeps its leading rows: they
      come from the listing, stay sorted, and a row that was cut off is not
      above any row that was kept. */
  lemma LimiteConservaLosPrimeros<T>(le: (T, T) -> bool, s: seq<T>, n: int)
    requires SortedBy(le, s)
    ensures forall x :: x in SqlLimit(s, n) ==> x in s
    ensures SortedBy(le, SqlLimit(s, n))
    ensures forall d, x :: d in s && d !in SqlLimit(s, n) && x in SqlLimit(s, n) ==> le(x, d)
  {
    var r := SqlLimit(s, n);
    assert r == s[..|r|];
    forall d, x | d in s && d !in r && x in r ensures le(x, d) {
      var j :| 0 <= j < |s| && s[j] == d;
      var i :| 0 <= i < |r| && r[i] == x;
      assert s[i] == x;
    }
  }

  /** `despachosRecientes(horas, limit)`: the dispatches created in the last
      `horas` hours (24 unless given), newest first, at most `limit` of them
      (50 unless given; a negative limit is ignored). */
  function Recientes(db: Db, horas: Arg, limite: Arg, ahora: int): (r: seq<Despacho>)
    ensures var desde := Desde(ahora, ConDefecto(horas, 24));
      forall x :: x in r ==> x in db.despachos && x.creadoEn >= desde
    ensures SortedBy(ControladorDespachos.MasReciente(), r)
    ensures var n := ConDefecto(limite, 50); var v := Ventana(db, Desde(ahora, ConDefecto(horas, 24)));
      |r| == if 0 <= n < |v| then n else |v|
    ensures var desde := Desde(ahora, ConDefecto(horas, 24));
      forall d, x :: d in db.despachos && d.creadoEn >= desde && d !in r && x in r ==> x.creadoEn >= d.creadoEn
    ensures multiset(r) <= multiset(Ventana(db, Desde(ahora, ConDefecto(horas, 24))))
  {
    var v := Ventana(db, Desde(ahora, ConDefecto(horas, 24)));
    ControladorDespachos.MasRecientePreorden();
    var s := SortBy(ControladorDespachos.MasReciente(), v);
    LimiteConservaLosPrimeros(ControladorDespachos.MasReciente(), s, ConDefecto(limite, 50));
    PrefijoMulticonjunto(SqlLimit(s, ConDefecto(limite, 50)), s);
    assert forall x :: x in s <==> x in v by {
      forall x ensures x in s <==> x in v {
        assert multiset(s)[x] == multiset(v)[x];
      }
    }
    SqlLimit(s, ConDefecto(limite, 50))
  }

  /** Without any dispatch created inside the window the list is empty. */
  lemma RecientesSinVentana(db: Db, horas: Arg, limite: Arg, ahora: int)
    requires forall d :: d in db.despachos ==> d.creadoEn < Desde(ahora, ConDefecto(horas, 24))
    ensures Recientes(db, horas, limite, ahora) == []
  {
    var r := Recientes(db, horas, limite, ahora);
    assert forall x :: x !in r;
  }

  /** `despachos(estado, prioridad, activos, limit)`: the rows passing every
      filter that is present, newest first, at most `limit` of them (50 when
      left out, no limit when `null`, a negative limit ignored). */
  function ListarDespachos(db: Db, f: ControladorDespachos.Filtros, limite: Arg): (r: seq<Despacho>)
    ensures forall x :: x in r ==> x in db.despachos && ControladorDespachos.Coincide(f, x)
    ensures SortedBy(ControladorDespachos.MasReciente(), r)
    ensures limite.Nulo? || (limite.Dado? && limite.v < 0) ==>
      forall d :: multiset(r)[d] == if ControladorDespachos.Coincide(f, d) then multiset(db.despachos)[d] else 0
    ensures Recibido(limite, 50).Some? && Recibido(limite, 50).value >= 0 ==> |r| <= Recibido(limite, 50).value
    ensures forall d, x :: d in db.despachos && ControladorDespachos.Coincide(f, d) && d !in r && x in r ==> x.creadoEn >= d.creadoEn
    ensures forall d :: multiset(r)[d] <= if ControladorDespachos.Coincide(f, d) then multiset(db.despachos)[d] else 0
    ensures var m := |ControladorDespachos.Index(db, f)|;
      Recibido(limite, 50).Some? && Recibido(limite, 50).value >= 0 ==>
        |r| == if Recibido(limite, 50).value < m then Recibido(limite, 50).value else m
  {
    var s := ControladorDespachos.Index(db, f);
    var n := Recibido(limite, 50).GetOr(-1);
    LimiteConservaLosPrimeros(ControladorDespachos.MasReciente(), s, n);
    IndexMiembros(db, f);
    PrefijoMulticonjunto(SqlLimit(s, n), s);
    SqlLimit(s, n)
  }

  /** A prefix holds each element at most as often as the whole list. */
  lemma PrefijoMulticonjunto<T>(r: seq<T>, s: seq<T>)
    requires r <= s
    ensures multiset(r) <= multiset(s)
  {
    assert s == r + s[|r|..];
  }

  /** The dispatches `Index` lists are exactly the stored ones passing the filters. */
  lemma IndexMiembros(db: Db, f: ControladorDespachos.Filtros)
    ensures forall x :: x in ControladorDespachos.Index(db, f) <==> x in db.despachos && ControladorDespachos.Coincide(f, x)
  {
    var s := ControladorDespachos.Index(db, f);
    forall x ensures x in s <==> x in db.despachos && ControladorDespachos.Coincide(f, x) {
      assert multiset(s)[x] > 0 <==> x in s;
    }
  }

  // ---------------------------------------------------------------------------
  // Crew listing

  /** The filters of `personales`: `rol` and `estado` when present, and the
      `disponibles` flag. */
  datatype FiltrosPersonal = FiltrosPersonal(rol: Option<string>, estado: Option<string>, disponibles: bool)

  /** A crew member passes every filter that is present. */
  predicate CoincidePersonal(f: FiltrosPersonal, p: Personal) {
    && (f.rol.Some? ==> p.rol.Name() == f.rol.value)
    && (f.estado.Some? ==> p.estado.Name() == f.estado.value)
    && (f.disponibles ==> p.estado == PDisponible)
  }

  /** `orderBy('nombre', 'asc')`: first names in code-point order. */
  function PorNombre(): ((Personal, Personal) -> bool) {
    (a: Personal, b: Personal) => LexLe(a.nombre, b.nombre)
  }

  lemma PorNombrePreorden()
    ensures Total(PorNombre()) && Transitive(PorNombre())
  {
    forall a: Personal, b: Personal ensures PorNombre()(a, b) || PorNombre()(b, a) {
      LexLeTotal(a.nombre, b.nombre);
    }
    forall a: Personal, b: Personal, c: Personal | PorNombre()(a, b) && PorNombre()(b, c)
      ensures PorNombre()(a, c)
    {
      LexLeTransitive(a.nombre, b.nombre, c.nombre);
    }
  }

  /** The crew members passing every filter, ordered by first name, before
      the page is cut: the role scope, the status `where` and the
      availability scope applied one after the other. */
  function Coincidentes(db: Db, f: FiltrosPersonal): (r: seq<Personal>)
    ensures SortedBy(PorNombre(), r)
    ensures forall p :: multiset(r)[p] == if CoincidePersonal(f, p) then multiset(db.personal)[p] else 0
    ensures forall p :: p in r <==> p in db.personal && CoincidePersonal(f, p)
  {
    var s := Filtrados(db, f);
    PorNombrePreorden();
    var r := SortBy(PorNombre(), s);
    assert forall p :: p in r <==> multiset(r)[p] > 0;
    r
  }

  /** The role scope, the status `where` and the availability scope applied
      one after the other keep exactly the crew members passing every filter
      that is present, each as often as it occurs. */
  function Filtrados(db: Db, f: FiltrosPersonal): (r: seq<Personal>)
    ensures forall p :: multiset(r)[p] == if CoincidePersonal(f, p) then multiset(db.personal)[p] else 0
  {
    var porRol := (p: Personal) => f.rol.Some? ==> p.rol.Name() == f.rol.value;
    var porEstado := (p: Personal) => f.estado.Some? ==> p.estado.Name() == f.estado.value;
    var s1 := if f.rol.Some? then Filter(porRol, db.personal) else db.personal;
    var s2 := if f.estado.Some? then Filter(porEstado, s1) else s1;
    var s3 := if f.disponibles then Personales.ScopeDisponibles(s2) else s2;
    assert forall p :: multiset(s3)[p] == if CoincidePersonal(f, p) then multiset(db.personal)[p] else 0 by {
      forall p ensures multiset(s3)[p] == if CoincidePersonal(f, p) then multiset(db.personal)[p] else 0 {
        if f.rol.Some? { FilterMultiset(porRol, db.personal, p); }
        if f.estado.Some? { FilterMultiset(porEstado, s1, p); }
        if f.disponibles { FilterMultiset(Personales.EstaDisponible, s2, p); }
      }
    }
    s3
  }

  /** Where a page starts: `offset k` clamped to the rows there are. */
  function Inicio(longitud: nat, k: int): (o: nat)
    ensures o <= longitud
  {
    if k <= 0 then 0 else if k < longitud then k else longitud
  }

  /** `offset k` then `limit n`, as the query builder applies them. */
  function Pagina<T>(s: seq<T>, k: int, n: int): (r: seq<T>)
    ensures |r| <= |s|
    ensures n >= 0 ==> |r| <= n
  {
    var o := Inicio(|s|, k);
    s[o..o + Tomadas(|s| - o, n)]
  }

  /** A page is what the query builder returns for `offset k` followed by
      `limit n`. */
  lemma PaginaEsConsulta<T>(s: seq<T>, k: int, n: int)
    ensures Pagina(s, k, n) == SqlLimit(SqlOffset(s, k), n)
  {
    var t := SqlOffset(s, k);
    assert t == s[Inicio(|s|, k)..];
  }

  /** A stretch of a sorted listing is sorted. */
  lemma TramoOrdenado<T>(le: (T, T) -> bool, s: seq<T>, a: nat, b: nat)
    requires SortedBy(le, s) && a <= b <= |s|
    ensures SortedBy(le, s[a..b])
  {
    var t := s[a..b];
    forall i, j | 0 <= i < j < |t| ensures le(t[i], t[j]) {
      assert t[i] == s[a + i];
      assert t[j] == s[a + j];
    }
  }

  /** A page of a sorted listing is sorted and holds only rows of the listing. */
  lemma PaginaOrdenada<T>(le: (T, T) -> bool, s: seq<T>, k: int, n: int)
    requires SortedBy(le, s)
    ensures SortedBy(le, Pagina(s, k, n))
    ensures forall x :: x in Pagina(s, k, n) ==> x in s
  {
    var r := Pagina(s, k, n);
    var o := Inicio(|s|, k);
    TramoOrdenado(le, s, o, o + |r|);
    assert forall x :: x in s[o..o + |r|] ==> x in s;
  }

  /** Reading page after page: the page of `limit` n from `offset` k followed
      by the page of `limit` m from `offset` k + n is the page of `limit` n + m
      from `offset` k. */
  lemma PaginaPartida<T>(s: seq<T>, k: nat, n: nat, m: nat)
    ensures Pagina(s, k, n) + Pagina(s, k + n, m) == Pagina(s, k, n + m)
  {
    var a := Pagina(s, k, n);
    var b := Pagina(s, k + n, m);
    var c := Pagina(s, k, n + m);
    var o := Inicio(|s|, k);
    var la := Tomadas(|s| - o, n);
    var lb := Tomadas(|s| - (o + la), m);
    PaginaLongitudes(|s|, k, n, m);
    Tramos(s, a, b, c, o, la, lb);
  }

  /** How many rows a page of `limit` n takes when `resto` rows follow its start. */
  function Tomadas(resto: int, n: int): int {
    if 0 <= n < resto then n else resto
  }

  /** The offsets and lengths of two consecutive pages add up. */
  lemma PaginaLongitudes(longitud: nat, k: nat, n: nat, m: nat)
    ensures var o := Inicio(longitud, k); var la := Tomadas(longitud - o, n);
      && Inicio(longitud, k + n) == o + la
      && Tomadas(longitud - o, n + m) == la + Tomadas(longitud - (o + la), m)
  {
  }

  /** Two adjacent stretches of a sequence make the stretch spanning both. */
  lemma Tramos<T>(s: seq<T>, a: seq<T>, b: seq<T>, c: seq<T>, o: nat, la: nat, lb: nat)
    requires o + la + lb <= |s|
    requires a == s[o..o + la] && b == s[o + la..o + la + lb] && c == s[o..o + la + lb]
    ensures a + b == c
  {
    assert s[o..o + la + lb] == s[o..o + la] + s[o + la..o + la + lb];
  }

  /** `personales(rol, estado, disponibles, limit, offset)`: the matching crew
      members ordered by first name, skipping the first `offset` (0 unless
      given; a negative offset counts as 0) and keeping at most `limit` (50
      unless given; a negative limit is ignored). */
  function ListarPersonal(db: Db, f: FiltrosPersonal, limite: Arg, desplazamiento: Arg): (r: seq<Personal>)
    ensures var n := ConDefecto(limite, 50); n >= 0 ==> |r| <= n
    ensures var m, n := |Coincidentes(db, f)|, ConDefecto(limite, 50);
      var o := Inicio(m, ConDefecto(desplazamiento, 0));
      |r| == if 0 <= n < m - o then n else m - o
  {
    Listado(Coincidentes(db, f), limite, desplazamiento)
  }

  /** The page a listing query cuts from the ordered rows `s`: `offset`
      defaults to 0 and `limit` to 50. */
  function Listado<T>(s: seq<T>, limite: Arg, desplazamiento: Arg): (r: seq<T>)
    ensures var n := ConDefecto(limite, 50); n >= 0 ==> |r| <= n
  {
    Pagina(s, ConDefecto(desplazamiento, 0), ConDefecto(limite, 50))
  }

  /** The page holds only matching members, ordered by first name, and is the
      stretch of the full ordered match list that starts after skipping
      `offset` members. */
  lemma ListarPersonalCoincide(db: Db, f: FiltrosPersonal, limite: Arg, desplazamiento: Arg)
    ensures var r := ListarPersonal(db, f, limite, desplazamiento);
      && (forall x :: x in r ==> x in db.personal && CoincidePersonal(f, x))
      && SortedBy(PorNombre(), r)
    ensures var r := ListarPersonal(db, f, limite, desplazamiento);
      var s := Coincidentes(db, f); var o := Inicio(|s|, ConDefecto(desplazamiento, 0));
      o + |r| <= |s| && r == s[o..o + |r|]
    ensures var r := ListarPersonal(db, f, limite, desplazamiento);
      var s := Coincidentes(db, f); var o := Inicio(|s|, ConDefecto(desplazamiento, 0));
      var n := ConDefecto(limite, 50);
      |r| == if 0 <= n < |s| - o then n else |s| - o
  {
    var s := Coincidentes(db, f);
    var k, n := ConDefecto(desplazamiento, 0), ConDefecto(limite, 50);
    assert ListarPersonal(db, f, limite, desplazamiento) == Pagina(s, k, n);
    PaginaOrdenada(PorNombre(), s, k, n);
  }

  /** Reading a listing page after page gives the rows of one larger page. */
  lemma ListadosConsecutivos<T>(s: seq<T>, k: nat, n: nat, m: nat)
    ensures Listado(s, Dado(n), Dado(k)) + Listado(s, Dado(m), Dado(k + n)) == Listado(s, Dado(n + m), Dado(k))
  {
    PaginaPartida(s, k, n, m);
  }

  /** Reading the crew listing page after page gives the members of one
      larger page. */
  lemma PaginasConsecutivas(db: Db, f: FiltrosPersonal, k: nat, n: nat, m: nat)
    ensures ListarPersonal(db, f, Dado(n), Dado(k)) + ListarPersonal(db, f, Dado(m), Dado(k + n))
      == ListarPersonal(db, f, Dado(n + m), Dado(k))
  {
    ListadosConsecutivos(Coincidentes(db, f), k, n, m);
  }

  /** Asking for available crew together with a status other than
      `disponible` lists nobody. */
  lemma PersonalFiltrosExcluyentes(db: Db, f: FiltrosPersonal, limite: Arg, desplazamiento: Arg)
    requires f.disponibles && f.estado.Some? && f.estado.value != PDisponible.Name()
    ensures ListarPersonal(db, f, limite, desplazamiento) == []
  {
  }

  /** A role name outside the enumeration lists nobody. */
  lemma PersonalRolDesconocido(db: Db, f: FiltrosPersonal, limite: Arg, desplazamiento: Arg)
    requires f.rol.Some? && ParseRol(f.rol.value).None?
    ensures ListarPersonal(db, f, limite, desplazamiento) == []
  {
    var r := ListarPersonal(db, f, limite, desplazamiento);
    ListarPersonalCoincide(db, f, limite, desplazamiento);
    ParseNameRoundTrip();
    assert forall x :: x !in r;
  }
}
