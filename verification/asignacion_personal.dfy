/** Crew reservation and release of the assignment service.

    `asignarPersonal` walks the requested roles in order. For each role it
    takes the first `cantidad` available members of that role (in table
    order); if fewer exist it rolls the whole reservation back and returns an
    empty list. Otherwise it links each member to the dispatch (the first of
    each role's batch as responsible) and puts them in service. */
module AsignacionPersonal {
  import opened Wrappers
  import opened Enums
  import opened Records
  import opened Seqs
  import Personales

  /** A reserved member: the row after the reservation, the role and the flag. */
  datatype Reservado = Reservado(personal: Personal, rolAsignado: Rol, esResponsable: bool)

  /** Quotas used when none are given: one driver and one paramedic. */
  const RolesPorDefecto: seq<(string, int)> := [("conductor", 1), ("paramedico", 1)]

  function RolesEfectivos(roles: seq<(string, int)>): (r: seq<(string, int)>)
    ensures |roles| > 0 ==> r == roles
    ensures |roles| == 0 ==> r == RolesPorDefecto
  {
    if |roles| == 0 then RolesPorDefecto else roles
  }

  /** The role names of a quota list are distinct, as the keys of a PHP array are. */
  ghost predicate ClavesDistintas(roles: seq<(string, int)>) {
    forall i, j :: 0 <= i < j < |roles| ==> roles[i].0 != roles[j].0
  }

  // ---------------------------------------------------------------------------
  // The batch of one role

  /** `Personal::disponibles()->where('rol', rol)->limit(cantidad)`: positions of
      the first `cantidad` available members of `rol` (all of them when the
      limit is negative, which the query builder ignores). */
  function Lote(s: seq<Personal>, rol: string, cantidad: int): (r: seq<nat>)
    ensures forall i :: 0 <= i < |r| ==> r[i] < |s| && s[r[i]].estado == PDisponible && s[r[i]].rol.Name() == rol
    ensures forall i, j :: 0 <= i < j < |r| ==> r[i] < r[j]
    ensures r <= Personales.IndicesDisponibles(s, rol, 0)
    ensures cantidad >= 0 ==> |r| == if cantidad < |Personales.IndicesDisponibles(s, rol, 0)| then cantidad
                                      else |Personales.IndicesDisponibles(s, rol, 0)|
    ensures cantidad < 0 ==> r == Personales.IndicesDisponibles(s, rol, 0)
  {
    SqlLimit(Personales.IndicesDisponibles(s, rol, 0), cantidad)
  }

  /** Fewer available members of `rol` than the quota asks for. */
  predicate Corto(s: seq<Personal>, rol: string, cantidad: int) {
    |Lote(s, rol, cantidad)| < cantidad
  }

  /** What the batch of one role yields when it is staffed: each member put in
      service, the role of the row, and the first one responsible. */
  function Lista(s: seq<Personal>, rol: string, cantidad: int): (r: seq<Reservado>)
    ensures |r| == |Lote(s, rol, cantidad)|
    ensures forall j :: 0 <= j < |r| ==>
      var p := s[Lote(s, rol, cantidad)[j]];
      r[j] == Reservado(p.(estado := PEnServicio), p.rol, j == 0)
  {
    var l := Lote(s, rol, cantidad);
    seq(|l|, j requires 0 <= j < |l| => Reservado(s[l[j]].(estado := PEnServicio), s[l[j]].rol, j == 0))
  }

  /** The links recorded for a list of reserved members. */
  function VinculosPara(despachoId: nat, l: seq<Reservado>): (r: seq<Asignacion>)
    ensures |r| == |l|
    ensures forall i :: 0 <= i < |l| ==>
      r[i] == Asignacion(despachoId, l[i].personal.id, l[i].rolAsignado, l[i].esResponsable)
  {
    seq(|l|, i requires 0 <= i < |l| => Asignacion(despachoId, l[i].personal.id, l[i].rolAsignado, l[i].esResponsable))
  }

  /** The status events raised by putting a list of available members in service. */
  function EventosServicio(l: seq<Reservado>): (r: seq<Evento>)
    ensures |r| == |l|
    ensures forall i :: 0 <= i < |l| ==> r[i] == PersonalEstadoCambiado(l[i].personal.id, PDisponible, PEnServicio)
  {
    seq(|l|, i requires 0 <= i < |l| => PersonalEstadoCambiado(l[i].personal.id, PDisponible, PEnServicio))
  }

  /** Some member of the batch is already linked to the dispatch: the unique
      (dispatch, member) index refuses the link. */
  predicate AlgunoVinculado(db: Db, despachoId: nat, lote: seq<nat>)
    requires forall i :: 0 <= i < |lote| ==> lote[i] < |db.personal|
  {
    exists i :: 0 <= i < |lote| && BuscarVinculo(db.asignaciones, despachoId, db.personal[lote[i]].id).Some?
  }

  /** The positions a batch may hold: valid, strictly increasing, and
      available from position `j` on. */
  ghost predicate LoteValido(db: Db, lote: seq<nat>, j: nat) {
    && j <= |lote|
    && (forall i :: 0 <= i < |lote| ==> lote[i] < |db.personal|)
    && (forall i :: j <= i < |lote| ==> db.personal[lote[i]].estado == PDisponible)
    && (forall a, b :: 0 <= a < b < |lote| ==> lote[a] < lote[b])
  }

  /** Links and puts in service the members at `lote[j..]`, in order. */
  function Vincular(db: Db, despachoId: nat, lote: seq<nat>, j: nat): (r: (seq<Reservado>, Db))
    requires LoteValido(db, lote, j)
    ensures |r.0| == |lote| - j
    ensures |r.1.personal| == |db.personal|
    ensures r.1.(personal := db.personal, asignaciones := db.asignaciones, eventos := db.eventos) == db
    decreases |lote| - j
  {
    if j == |lote| then ([], db)
    else
      var k := lote[j];
      var p := db.personal[k];
      var db1 := db.(asignaciones := db.asignaciones + [Asignacion(despachoId, p.id, p.rol, j == 0)]);
      var db2 := Personales.MarcarEnServicio(db1, k);
      var (resto, db3) := Vincular(db2, despachoId, lote, j + 1);
      ([Reservado(p.(estado := PEnServicio), p.rol, j == 0)] + resto, db3)
  }

  /** One step of `Vincular` leaves the batch valid for the next position. */
  lemma VincularPaso(db: Db, despachoId: nat, lote: seq<nat>, j: nat)
    requires LoteValido(db, lote, j) && j < |lote|
    ensures var p := db.personal[lote[j]];
      var db2 := Personales.MarcarEnServicio(db.(asignaciones := db.asignaciones + [Asignacion(despachoId, p.id, p.rol, j == 0)]), lote[j]);
      && LoteValido(db2, lote, j + 1)
      && (forall i :: j < i < |lote| ==> db2.personal[lote[i]] == db.personal[lote[i]])
  {
  }

  /** `Vincular` returns each member of the batch put in service, with its
      role, the very first one flagged responsible. */
  lemma {:induction false} VincularLista(db: Db, despachoId: nat, lote: seq<nat>, j: nat)
    requires LoteValido(db, lote, j)
    ensures var r := Vincular(db, despachoId, lote, j);
      forall i :: j <= i < |lote| ==>
        var p := db.personal[lote[i]];
        r.0[i - j] == Reservado(p.(estado := PEnServicio), p.rol, i == 0)
    decreases |lote| - j
  {
    if j < |lote| {
      var db2 := CabezaLista(db, despachoId, lote, j);
      VincularLista(db2, despachoId, lote, j + 1);
      var r := Vincular(db, despachoId, lote, j).0;
      var resto := Vincular(db2, despachoId, lote, j + 1).0;
      forall i | j <= i < |lote|
        ensures var p := db.personal[lote[i]]; r[i - j] == Reservado(p.(estado := PEnServicio), p.rol, i == 0)
      {
        var p := db.personal[lote[i]];
        if i > j {
          assert db2.personal[lote[i]] == p;
          assert resto[i - (j + 1)] == Reservado(p.(estado := PEnServicio), p.rol, i == 0);
          assert r[i - j] == resto[i - (j + 1)];
        } else {
          assert r[0] == Reservado(p.(estado := PEnServicio), p.rol, j == 0);
        }
      }
    }
  }

  /** The part of the first step of `Vincular` that the returned list sees:
      the head entry, and the later batch rows as they were. */
  lemma CabezaLista(db: Db, despachoId: nat, lote: seq<nat>, j: nat) returns (db2: Db)
    requires LoteValido(db, lote, j) && j < |lote|
    ensures LoteValido(db2, lote, j + 1)
    ensures var p := db.personal[lote[j]];
      Vincular(db, despachoId, lote, j).0 ==
        [Reservado(p.(estado := PEnServicio), p.rol, j == 0)] + Vincular(db2, despachoId, lote, j + 1).0
    ensures forall i :: j < i < |lote| ==> db2.personal[lote[i]] == db.personal[lote[i]]
  {
    var a;
    a, db2 := VincularCabeza(db, despachoId, lote, j);
    forall i | j < i < |lote| ensures db2.personal[lote[i]] == db.personal[lote[i]] {
      assert lote[j] < lote[i];
    }
  }

  /** `Vincular` puts exactly the members of `lote[j..]` in service and leaves
      every other crew row as it was. */
  lemma {:induction false} VincularPersonal(db: Db, despachoId: nat, lote: seq<nat>, j: nat)
    requires LoteValido(db, lote, j)
    ensures var r := Vincular(db, despachoId, lote, j);
      && (forall i :: j <= i < |lote| ==> r.1.personal[lote[i]] == db.personal[lote[i]].(estado := PEnServicio))
      && (forall k :: 0 <= k < |db.personal| && (forall i :: j <= i < |lote| ==> lote[i] != k) ==>
            r.1.personal[k] == db.personal[k])
    decreases |lote| - j
  {
    if j < |lote| {
      var a, db2 := VincularCabeza(db, despachoId, lote, j);
      VincularPersonal(db2, despachoId, lote, j + 1);
      var r := Vincular(db, despachoId, lote, j).1;
      forall i | j <= i < |lote| ensures r.personal[lote[i]] == db.personal[lote[i]].(estado := PEnServicio) {
        if i == j {
          assert forall q :: j + 1 <= q < |lote| ==> lote[j] < lote[q];
        } else {
          assert lote[j] < lote[i];
        }
      }
      forall k | 0 <= k < |db.personal| && (forall i :: j <= i < |lote| ==> lote[i] != k)
        ensures r.personal[k] == db.personal[k]
      {
        assert lote[j] != k;
      }
    }
  }

  lemma VinculosParaConcat(despachoId: nat, x: seq<Reservado>, y: seq<Reservado>)
    ensures VinculosPara(despachoId, x + y) == VinculosPara(despachoId, x) + VinculosPara(despachoId, y)
    ensures EventosServicio(x + y) == EventosServicio(x) + EventosServicio(y)
  {
  }

  /** The first step of `Vincular`: the member at `lote[j]` is reserved as
      `a`, one link and one status event are recorded, and the rest of the
      batch continues from the store `db2` that step leaves. */
  lemma VincularCabeza(db: Db, despachoId: nat, lote: seq<nat>, j: nat) returns (a: Reservado, db2: Db)
    requires LoteValido(db, lote, j) && j < |lote|
    ensures LoteValido(db2, lote, j + 1)
    ensures Vincular(db, despachoId, lote, j).0 == [a] + Vincular(db2, despachoId, lote, j + 1).0
    ensures Vincular(db, despachoId, lote, j).1 == Vincular(db2, despachoId, lote, j + 1).1
    ensures db2.asignaciones == db.asignaciones + VinculosPara(despachoId, [a])
    ensures db2.eventos == db.eventos + EventosServicio([a])
    ensures var p := db.personal[lote[j]];
      && a == Reservado(p.(estado := PEnServicio), p.rol, j == 0)
      && |db2.personal| == |db.personal|
      && db2.personal[lote[j]] == p.(estado := PEnServicio)
      && forall k :: 0 <= k < |db.personal| && k != lote[j] ==> db2.personal[k] == db.personal[k]
  {
    var p := db.personal[lote[j]];
    a := Reservado(p.(estado := PEnServicio), p.rol, j == 0);
    db2 := Personales.MarcarEnServicio(db.(asignaciones := db.asignaciones + [Asignacion(despachoId, p.id, p.rol, j == 0)]), lote[j]);
    VincularPaso(db, despachoId, lote, j);
  }

  /** Appending in two steps is appending the two parts at once. */
  lemma Encaje<X>(base: seq<X>, x: seq<X>, y: seq<X>, medio: seq<X>, fin: seq<X>)
    requires medio == base + x && fin == medio + y
    ensures fin == base + (x + y)
  {
  }

  /** `Vincular` appends one link and one status event per member, in order. */
  lemma {:induction false} VincularRegistros(db: Db, despachoId: nat, lote: seq<nat>, j: nat)
    requires LoteValido(db, lote, j)
    ensures var r := Vincular(db, despachoId, lote, j);
      && r.1.asignaciones == db.asignaciones + VinculosPara(despachoId, r.0)
      && r.1.eventos == db.eventos + EventosServicio(r.0)
    decreases |lote| - j
  {
    if j < |lote| {
      var a, db2 := VincularCabeza(db, despachoId, lote, j);
      VincularRegistros(db2, despachoId, lote, j + 1);
      var r2 := Vincular(db2, despachoId, lote, j + 1);
      VinculosParaConcat(despachoId, [a], r2.0);
      Encaje(db.asignaciones, VinculosPara(despachoId, [a]), VinculosPara(despachoId, r2.0), db2.asignaciones, r2.1.asignaciones);
      Encaje(db.eventos, EventosServicio([a]), EventosServicio(r2.0), db2.eventos, r2.1.eventos);
    }
  }

  /** Outcome of reserving the crew for a list of roles. */
  datatype Paso = Corta | Choque | Hecho(asignados: seq<Reservado>, db: Db)

  /** The reservation of `roles` in order, stopping at the first short role
      or refused link. */
  function AsignarRoles(db: Db, despachoId: nat, roles: seq<(string, int)>): (r: Paso)
    ensures r.Hecho? ==> r.db.(personal := db.personal, asignaciones := db.asignaciones, eventos := db.eventos) == db
    ensures r.Hecho? ==> |r.db.personal| == |db.personal|
    decreases |roles|
  {
    if |roles| == 0 then Hecho([], db)
    else
      var (rol, cantidad) := roles[0];
      var lote := Lote(db.personal, rol, cantidad);
      if |lote| < cantidad then Corta
      else if AlgunoVinculado(db, despachoId, lote) then Choque
      else
        var (a, db1) := Vincular(db, despachoId, lote, 0);
        match AsignarRoles(db1, despachoId, roles[1..])
        case Corta => Corta
        case Choque => Choque
        case Hecho(b, db2) => Hecho(a + b, db2)
  }

  /** `asignarPersonal`: the reserved members and the store after the call.
      A short role gives an empty list with the store as it was; a refused
      link raises, also with the store as it was. */
  function AsignarPersonal(db: Db, despachoId: nat, roles: seq<(string, int)>)
    : (r: (Result<seq<Reservado>, Falla>, Db))
    ensures r.0.Failure? ==> r.1 == db
    ensures r.0.Failure? ==> r.0.error == Duplicado
    ensures r.1.(personal := db.personal, asignaciones := db.asignaciones, eventos := db.eventos) == db
  {
    match AsignarRoles(db, despachoId, RolesEfectivos(roles))
    case Corta => (Success([]), db)
    case Choque => (Failure(Duplicado), db)
    case Hecho(l, db1) => (Success(l), db1)
  }

  // ---------------------------------------------------------------------------
  // The plan computed on the store before the call

  /** The members every role's batch would take, computed on the original
      crew table; the reference the sequential reservation is proved against. */
  function Plan(s: seq<Personal>, roles: seq<(string, int)>): (r: seq<Reservado>)
    decreases |roles|
  {
    if |roles| == 0 then [] else Lista(s, roles[0].0, roles[0].1) + Plan(s, roles[1..])
  }

  /** Some role of the list is short in table `s`. */
  predicate AlgunCorto(s: seq<Personal>, roles: seq<(string, int)>) {
    exists i :: 0 <= i < |roles| && Corto(s, roles[i].0, roles[i].1)
  }

  /** Position `k` of the crew table is in the batch of some role. */
  predicate EnPlan(s: seq<Personal>, roles: seq<(string, int)>, k: nat) {
    exists i :: 0 <= i < |roles| && k in Lote(s, roles[i].0, roles[i].1)
  }

  predicate SinVinculos(db: Db, despachoId: nat) {
    forall i :: 0 <= i < |db.asignaciones| ==> db.asignaciones[i].despachoId != despachoId
  }

  /** Unique crew keys. */
  ghost predicate IdsUnicos(s: seq<Personal>) {
    forall i, j :: 0 <= i < j < |s| ==> s[i].id != s[j].id
  }

  /** Two crew tables that differ only in the status of members of role `rol`. */
  ghost predicate DifierenSoloEnRol(s: seq<Personal>, t: seq<Personal>, rol: string) {
    && |s| == |t|
    && forall k :: 0 <= k < |s| ==> s[k].id == t[k].id && s[k].rol == t[k].rol
                                    && (s[k] != t[k] ==> s[k].rol.Name() == rol)
  }

  /** Batches of the other roles do not see such a difference. */
  lemma OtroRolIgual(s: seq<Personal>, t: seq<Personal>, rol: string, otro: string, cantidad: int)
    requires DifierenSoloEnRol(s, t, rol) && otro != rol
    ensures Lote(s, otro, cantidad) == Lote(t, otro, cantidad)
    ensures Lista(s, otro, cantidad) == Lista(t, otro, cantidad)
  {
    Personales.IndicesIguales(s, t, otro, 0);
    var l := Lote(s, otro, cantidad);
    forall j | 0 <= j < |l| ensures s[l[j]] == t[l[j]] {
      assert s[l[j]].rol.Name() == otro;
    }
  }

  /** The plan, shortness and batch membership of roles other than `rol` are
      the same in both tables. */
  lemma {:induction false} PlanIgual(s: seq<Personal>, t: seq<Personal>, rol: string, roles: seq<(string, int)>)
    requires DifierenSoloEnRol(s, t, rol)
    requires forall i :: 0 <= i < |roles| ==> roles[i].0 != rol
    ensures Plan(s, roles) == Plan(t, roles)
    ensures AlgunCorto(s, roles) <==> AlgunCorto(t, roles)
    ensures forall k: nat :: EnPlan(s, roles, k) <==> EnPlan(t, roles, k)
    decreases |roles|
  {
    forall i | 0 <= i < |roles| ensures Lote(s, roles[i].0, roles[i].1) == Lote(t, roles[i].0, roles[i].1) {
      OtroRolIgual(s, t, rol, roles[i].0, roles[i].1);
    }
    if |roles| > 0 {
      OtroRolIgual(s, t, rol, roles[0].0, roles[0].1);
      PlanIgual(s, t, rol, roles[1..]);
    }
  }

  /** No member of any role's batch is already linked to the dispatch. */
  ghost predicate PlanLibre(db: Db, despachoId: nat, roles: seq<(string, int)>) {
    forall i, m :: 0 <= i < |roles| && m in Lote(db.personal, roles[i].0, roles[i].1) ==>
      BuscarVinculo(db.asignaciones, despachoId, db.personal[m].id).None?
  }

  /** Staffing one role changes only the status of members of that role. */
  lemma VincularDifiereSoloEnRol(db: Db, despachoId: nat, rol: string, cantidad: int)
    ensures var lote := Lote(db.personal, rol, cantidad);
      LoteValido(db, lote, 0) &&
      DifierenSoloEnRol(db.personal, Vincular(db, despachoId, lote, 0).1.personal, rol)
  {
    var lote := Lote(db.personal, rol, cantidad);
    var t := Vincular(db, despachoId, lote, 0).1.personal;
    forall k | 0 <= k < |db.personal|
      ensures db.personal[k].id == t[k].id && db.personal[k].rol == t[k].rol
      ensures db.personal[k] != t[k] ==> db.personal[k].rol.Name() == rol
    {
      VincularPersonalEn(db, despachoId, lote, k);
    }
  }

  /** Row `k` after a whole batch is staffed: put in service when the batch
      holds it, unchanged otherwise. */
  lemma VincularPersonalEn(db: Db, despachoId: nat, lote: seq<nat>, k: nat)
    requires LoteValido(db, lote, 0) && k < |db.personal|
    ensures var t := Vincular(db, despachoId, lote, 0).1.personal;
      if k in lote then t[k] == db.personal[k].(estado := PEnServicio) else t[k] == db.personal[k]
  {
    VincularPersonal(db, despachoId, lote, 0);
    if k in lote {
      var i :| 0 <= i < |lote| && lote[i] == k;
    }
  }

  /** After one role is staffed, the rest of the plan is still free of links. */
  lemma PlanLibreTrasRol(db: Db, despachoId: nat, roles: seq<(string, int)>)
    requires |roles| > 0 && ClavesDistintas(roles) && IdsUnicos(db.personal)
    requires PlanLibre(db, despachoId, roles)
    ensures var lote := Lote(db.personal, roles[0].0, roles[0].1);
      LoteValido(db, lote, 0) &&
      PlanLibre(Vincular(db, despachoId, lote, 0).1, despachoId, roles[1..])
  {
    var rol := roles[0].0;
    var lote := Lote(db.personal, rol, roles[0].1);
    var r := Vincular(db, despachoId, lote, 0);
    var db1 := r.1;
    VincularDifiereSoloEnRol(db, despachoId, rol, roles[0].1);
    VincularRegistros(db, despachoId, lote, 0);
    VincularLista(db, despachoId, lote, 0);
    var resto := roles[1..];
    forall i, m | 0 <= i < |resto| && m in Lote(db1.personal, resto[i].0, resto[i].1)
      ensures BuscarVinculo(db1.asignaciones, despachoId, db1.personal[m].id).None?
    {
      assert resto[i] == roles[i + 1];
      OtroRolIgual(db.personal, db1.personal, rol, resto[i].0, resto[i].1);
      assert BuscarVinculo(db.asignaciones, despachoId, db.personal[m].id).None?;
      LibreTrasRol(db, despachoId, rol, roles[0].1, m);
    }
  }

  /** A member of another role without a link to the dispatch still has none
      after one role is staffed. */
  lemma LibreTrasRol(db: Db, despachoId: nat, rol: string, cantidad: int, m: nat)
    requires IdsUnicos(db.personal)
    requires m < |db.personal| && db.personal[m].rol.Name() != rol
    requires BuscarVinculo(db.asignaciones, despachoId, db.personal[m].id).None?
    ensures var lote := Lote(db.personal, rol, cantidad);
      LoteValido(db, lote, 0) &&
      var db1 := Vincular(db, despachoId, lote, 0).1;
      m < |db1.personal| && BuscarVinculo(db1.asignaciones, despachoId, db1.personal[m].id).None?
  {
    var lote := Lote(db.personal, rol, cantidad);
    var r := Vincular(db, despachoId, lote, 0);
    VincularDifiereSoloEnRol(db, despachoId, rol, cantidad);
    NuevosAjenos(db, despachoId, rol, cantidad, m);
    VincularRegistros(db, despachoId, lote, 0);
    SinVinculoTrasAgregar(db.asignaciones, VinculosPara(despachoId, r.0), despachoId, db.personal[m].id);
  }

  /** The links one role's staffing adds name only members of that role. */
  lemma NuevosAjenos(db: Db, despachoId: nat, rol: string, cantidad: int, m: nat)
    requires IdsUnicos(db.personal)
    requires m < |db.personal| && db.personal[m].rol.Name() != rol
    ensures var lote := Lote(db.personal, rol, cantidad);
      LoteValido(db, lote, 0) &&
      var nuevos := VinculosPara(despachoId, Vincular(db, despachoId, lote, 0).0);
      forall q :: 0 <= q < |nuevos| ==> nuevos[q].personalId != db.personal[m].id
  {
    var lote := Lote(db.personal, rol, cantidad);
    var l := Vincular(db, despachoId, lote, 0).0;
    var nuevos := VinculosPara(despachoId, l);
    forall q | 0 <= q < |nuevos| ensures nuevos[q].personalId != db.personal[m].id {
      VincularListaEn(db, despachoId, lote, q);
      assert nuevos[q].personalId == l[q].personal.id;
      assert lote[q] != m;
    }
  }

  /** The entry `Vincular` returns for position `i` of a whole batch. */
  lemma VincularListaEn(db: Db, despachoId: nat, lote: seq<nat>, i: nat)
    requires LoteValido(db, lote, 0) && i < |lote|
    ensures var p := db.personal[lote[i]];
      Vincular(db, despachoId, lote, 0).0[i] == Reservado(p.(estado := PEnServicio), p.rol, i == 0)
  {
    VincularLista(db, despachoId, lote, 0);
  }

  /** Appending links that do not name a member keeps that member unlinked. */
  lemma SinVinculoTrasAgregar(base: seq<Asignacion>, nuevos: seq<Asignacion>, despachoId: nat, personalId: nat)
    requires BuscarVinculo(base, despachoId, personalId).None?
    requires forall q :: 0 <= q < |nuevos| ==> nuevos[q].personalId != personalId
    ensures BuscarVinculo(base + nuevos, despachoId, personalId).None?
  {
    var t := base + nuevos;
    forall q | 0 <= q < |t| ensures !(t[q].despachoId == despachoId && t[q].personalId == personalId) {
      if q >= |base| {
        assert t[q] == nuevos[q - |base|];
      }
    }
  }

  /** A list has a short role exactly when its head or its tail has one. */
  lemma AlgunCortoCabeza(s: seq<Personal>, roles: seq<(string, int)>)
    requires |roles| > 0
    ensures AlgunCorto(s, roles) <==> Corto(s, roles[0].0, roles[0].1) || AlgunCorto(s, roles[1..])
  {
    forall i | 0 < i < |roles| ensures roles[i] == roles[1..][i - 1] { }
    if AlgunCorto(s, roles[1..]) {
      var i :| 0 <= i < |roles[1..]| && Corto(s, roles[1..][i].0, roles[1..][i].1);
      assert roles[1..][i] == roles[i + 1];
    }
  }

  /** The tail of a list with distinct role names has distinct role names. */
  lemma ClavesDistintasResto(roles: seq<(string, int)>)
    requires |roles| > 0 && ClavesDistintas(roles)
    ensures ClavesDistintas(roles[1..])
    ensures forall i :: 0 <= i < |roles[1..]| ==> roles[1..][i].0 != roles[0].0
  {
    forall i, j | 0 <= i < j < |roles[1..]| ensures roles[1..][i].0 != roles[1..][j].0 {
      assert roles[1..][i] == roles[i + 1] && roles[1..][j] == roles[j + 1];
    }
    forall i | 0 <= i < |roles[1..]| ensures roles[1..][i].0 != roles[0].0 {
      assert roles[1..][i] == roles[i + 1];
    }
  }

  /** The first role's batch is free of links and yields its list. */
  lemma PrimerLote(db: Db, despachoId: nat, roles: seq<(string, int)>)
    requires |roles| > 0 && PlanLibre(db, despachoId, roles)
    ensures var lote := Lote(db.personal, roles[0].0, roles[0].1);
      && LoteValido(db, lote, 0)
      && !AlgunoVinculado(db, despachoId, lote)
      && Vincular(db, despachoId, lote, 0).0 == Lista(db.personal, roles[0].0, roles[0].1)
  {
    var lote := Lote(db.personal, roles[0].0, roles[0].1);
    forall i | 0 <= i < |lote|
      ensures BuscarVinculo(db.asignaciones, despachoId, db.personal[lote[i]].id).None?
    {
      assert lote[i] in Lote(db.personal, roles[0].0, roles[0].1);
    }
    VincularLista(db, despachoId, lote, 0);
  }

  /** After the first role is staffed, the rest of the list sees the plan,
      the shortness and the free links it saw on the original store. */
  lemma PrimerRol(db: Db, despachoId: nat, roles: seq<(string, int)>)
    requires |roles| > 0 && ClavesDistintas(roles) && IdsUnicos(db.personal)
    requires PlanLibre(db, despachoId, roles)
    ensures var lote := Lote(db.personal, roles[0].0, roles[0].1);
      && LoteValido(db, lote, 0)
      && var db1 := Vincular(db, despachoId, lote, 0).1;
      && IdsUnicos(db1.personal)
      && ClavesDistintas(roles[1..])
      && PlanLibre(db1, despachoId, roles[1..])
      && DifierenSoloEnRol(db.personal, db1.personal, roles[0].0)
      && Plan(db.personal, roles[1..]) == Plan(db1.personal, roles[1..])
      && (AlgunCorto(db.personal, roles[1..]) <==> AlgunCorto(db1.personal, roles[1..]))
  {
    var lote := Lote(db.personal, roles[0].0, roles[0].1);
    var db1 := Vincular(db, despachoId, lote, 0).1;
    VincularDifiereSoloEnRol(db, despachoId, roles[0].0, roles[0].1);
    PlanLibreTrasRol(db, despachoId, roles);
    ClavesDistintasResto(roles);
    PlanIgual(db.personal, db1.personal, roles[0].0, roles[1..]);
  }

  /** The sequential reservation yields the plan computed on the original
      table: it is short exactly when some role is short, and otherwise
      returns every role's batch in the order the roles were given. */
  lemma {:induction false} AsignarRolesSegunPlan(db: Db, despachoId: nat, roles: seq<(string, int)>)
    requires ClavesDistintas(roles) && IdsUnicos(db.personal) && PlanLibre(db, despachoId, roles)
    ensures AsignarRoles(db, despachoId, roles).Corta? <==> AlgunCorto(db.personal, roles)
    ensures !AsignarRoles(db, despachoId, roles).Choque?
    ensures AsignarRoles(db, despachoId, roles).Hecho? ==>
      AsignarRoles(db, despachoId, roles).asignados == Plan(db.personal, roles)
    decreases |roles|
  {
    if |roles| > 0 {
      AlgunCortoCabeza(db.personal, roles);
      var lote := Lote(db.personal, roles[0].0, roles[0].1);
      if |lote| >= roles[0].1 {
        PrimerLote(db, despachoId, roles);
        PrimerRol(db, despachoId, roles);
        var db1 := Vincular(db, despachoId, lote, 0).1;
        AsignarRolesSegunPlan(db1, despachoId, roles[1..]);
      }
    }
  }

  /** Plan membership splits into the first role's batch and the rest's plan,
      and the two parts are disjoint when the role names are. */
  lemma EnPlanCabeza(s: seq<Personal>, roles: seq<(string, int)>, k: nat)
    requires |roles| > 0 && ClavesDistintas(roles)
    ensures EnPlan(s, roles, k) <==> k in Lote(s, roles[0].0, roles[0].1) || EnPlan(s, roles[1..], k)
    ensures k in Lote(s, roles[0].0, roles[0].1) ==> !EnPlan(s, roles[1..], k)
  {
    ClavesDistintasResto(roles);
    if EnPlan(s, roles, k) && !(k in Lote(s, roles[0].0, roles[0].1)) {
      var i :| 0 <= i < |roles| && k in Lote(s, roles[i].0, roles[i].1);
      assert roles[1..][i - 1] == roles[i];
    }
    if EnPlan(s, roles[1..], k) {
      var i :| 0 <= i < |roles[1..]| && k in Lote(s, roles[1..][i].0, roles[1..][i].1);
      assert roles[1..][i] == roles[i + 1];
      var l := Lote(s, roles[1..][i].0, roles[1..][i].1);
      var q :| 0 <= q < |l| && l[q] == k;
      assert s[k].rol.Name() != roles[0].0;
      var l0 := Lote(s, roles[0].0, roles[0].1);
      assert forall q0 :: 0 <= q0 < |l0| ==> s[l0[q0]].rol.Name() == roles[0].0;
    }
  }

  /** One step of the reservation: once the first role is staffed, the
      outcome is the rest's outcome with the first batch in front. */
  lemma AsignarRolesPaso(db: Db, despachoId: nat, roles: seq<(string, int)>)
    requires |roles| > 0
    requires var lote := Lote(db.personal, roles[0].0, roles[0].1);
      LoteValido(db, lote, 0) && |lote| >= roles[0].1 && !AlgunoVinculado(db, despachoId, lote)
    ensures var lote := Lote(db.personal, roles[0].0, roles[0].1);
      var v := Vincular(db, despachoId, lote, 0);
      var r := AsignarRoles(db, despachoId, roles);
      var r2 := AsignarRoles(v.1, despachoId, roles[1..]);
      && (r.Hecho? <==> r2.Hecho?)
      && (r.Hecho? ==> r.db == r2.db && r.asignados == v.0 + r2.asignados)
  {
  }

  /** Two appends of links and events make one append of the concatenation. */
  lemma Encadenar(db: Db, db1: Db, db2: Db, despachoId: nat, x: seq<Reservado>, y: seq<Reservado>)
    requires db1.asignaciones == db.asignaciones + VinculosPara(despachoId, x)
    requires db1.eventos == db.eventos + EventosServicio(x)
    requires db2.asignaciones == db1.asignaciones + VinculosPara(despachoId, y)
    requires db2.eventos == db1.eventos + EventosServicio(y)
    ensures db2.asignaciones == db.asignaciones + VinculosPara(despachoId, x + y)
    ensures db2.eventos == db.eventos + EventosServicio(x + y)
  {
    VinculosParaConcat(despachoId, x, y);
  }

  /** A completed reservation appends one link and one status event per
      planned member, in plan order. */
  lemma {:induction false} AsignarRolesRegistros(db: Db, despachoId: nat, roles: seq<(string, int)>)
    requires ClavesDistintas(roles) && IdsUnicos(db.personal) && PlanLibre(db, despachoId, roles)
    ensures var r := AsignarRoles(db, despachoId, roles);
      r.Hecho? ==>
        && r.db.asignaciones == db.asignaciones + VinculosPara(despachoId, Plan(db.personal, roles))
        && r.db.eventos == db.eventos + EventosServicio(Plan(db.personal, roles))
    decreases |roles|
  {
    if |roles| > 0 {
      var lote := Lote(db.personal, roles[0].0, roles[0].1);
      if |lote| >= roles[0].1 {
        PrimerLote(db, despachoId, roles);
        PrimerRol(db, despachoId, roles);
        AsignarRolesPaso(db, despachoId, roles);
        var v := Vincular(db, despachoId, lote, 0);
        VincularRegistros(db, despachoId, lote, 0);
        AsignarRolesRegistros(v.1, despachoId, roles[1..]);
        var resto := Plan(db.personal, roles[1..]);
        assert Plan(db.personal, roles) == v.0 + resto;
        var r := AsignarRoles(db, despachoId, roles);
        var r2 := AsignarRoles(v.1, despachoId, roles[1..]);
        if r.Hecho? {
          assert r.db == r2.db;
          assert r2.db.asignaciones == v.1.asignaciones + VinculosPara(despachoId, resto);
          assert v.1.asignaciones == db.asignaciones + VinculosPara(despachoId, v.0);
          assert r2.db.eventos == v.1.eventos + EventosServicio(resto);
          assert v.1.eventos == db.eventos + EventosServicio(v.0);
          Encadenar(db, v.1, r.db, despachoId, v.0, resto);
        }
      }
    } else {
      assert VinculosPara(despachoId, []) == [] && EventosServicio([]) == [];
    }
  }

  /** Row `k` after both steps, when each step changes only its own batch. */
  lemma FilaTrasDosPasos(s0: seq<Personal>, s1: seq<Personal>, s2: seq<Personal>, k: nat,
                         enLote: bool, enResto: bool)
    requires k < |s0| == |s1| == |s2|
    requires !(enLote && enResto)
    requires s1[k] == if enLote then s0[k].(estado := PEnServicio) else s0[k]
    requires s2[k] == if enResto then s1[k].(estado := PEnServicio) else s1[k]
    ensures s2[k] == if enLote || enResto then s0[k].(estado := PEnServicio) else s0[k]
  {
  }

  /** A completed reservation puts exactly the planned members in service and
      leaves every other crew row as it was. */
  lemma {:induction false} AsignarRolesPersonal(db: Db, despachoId: nat, roles: seq<(string, int)>)
    requires ClavesDistintas(roles) && IdsUnicos(db.personal) && PlanLibre(db, despachoId, roles)
    ensures var r := AsignarRoles(db, despachoId, roles);
      r.Hecho? ==> forall k: nat :: k < |db.personal| ==>
        r.db.personal[k] == if EnPlan(db.personal, roles, k) then db.personal[k].(estado := PEnServicio)
                            else db.personal[k]
    decreases |roles|
  {
    if |roles| > 0 {
      var lote := Lote(db.personal, roles[0].0, roles[0].1);
      if |lote| >= roles[0].1 {
        PrimerLote(db, despachoId, roles);
        PrimerRol(db, despachoId, roles);
        AsignarRolesPaso(db, despachoId, roles);
        var v := Vincular(db, despachoId, lote, 0);
        VincularPersonal(db, despachoId, lote, 0);
        ClavesDistintasResto(roles);
        PlanIgual(db.personal, v.1.personal, roles[0].0, roles[1..]);
        AsignarRolesPersonal(v.1, despachoId, roles[1..]);
        var r := AsignarRoles(db, despachoId, roles);
        var r2 := AsignarRoles(v.1, despachoId, roles[1..]);
        if r.Hecho? {
          assert r.db == r2.db;
          forall k: nat | k < |db.personal|
            ensures r.db.personal[k] == if EnPlan(db.personal, roles, k) then db.personal[k].(estado := PEnServicio)
                                        else db.personal[k]
          {
            EnPlanCabeza(db.personal, roles, k);
            assert EnPlan(v.1.personal, roles[1..], k) == EnPlan(db.personal, roles[1..], k);
            if k in lote {
              var q :| 0 <= q < |lote| && lote[q] == k;
            }
            FilaTrasDosPasos(db.personal, v.1.personal, r.db.personal, k, k in lote, EnPlan(db.personal, roles[1..], k));
          }
        }
      }
    }
  }

  /** A dispatch with no links leaves every batch free. */
  lemma SinVinculosPlanLibre(db: Db, despachoId: nat, roles: seq<(string, int)>)
    requires SinVinculos(db, despachoId)
    ensures PlanLibre(db, despachoId, roles)
  {
  }

  /** When no role is short, `asignarPersonal` reserves exactly the plan:
      the plan's members come back in role order, those rows alone are put
      in service, and one link and one status event are appended per
      member. When some role is short the store is left as it was and the
      list is empty. A refused link only happens if a planned member was
      already linked. */
  lemma AsignarPersonalSegunPlan(db: Db, despachoId: nat, roles: seq<(string, int)>)
    requires ClavesDistintas(RolesEfectivos(roles)) && IdsUnicos(db.personal)
    requires PlanLibre(db, despachoId, RolesEfectivos(roles))
    ensures var r := AsignarPersonal(db, despachoId, roles);
      var roles' := RolesEfectivos(roles);
      && r.0.Success?
      && (AlgunCorto(db.personal, roles') ==> r == (Success([]), db))
      && (!AlgunCorto(db.personal, roles') ==>
            && r.0.value == Plan(db.personal, roles')
            && r.1.asignaciones == db.asignaciones + VinculosPara(despachoId, Plan(db.personal, roles'))
            && r.1.eventos == db.eventos + EventosServicio(Plan(db.personal, roles'))
            && |r.1.personal| == |db.personal|
            && (forall k: nat :: k < |db.personal| ==>
                  r.1.personal[k] == if EnPlan(db.personal, roles', k)
                                     then db.personal[k].(estado := PEnServicio) else db.personal[k]))
  {
    var roles' := RolesEfectivos(roles);
    AsignarRolesSegunPlan(db, despachoId, roles');
    AsignarRolesRegistros(db, despachoId, roles');
    AsignarRolesPersonal(db, despachoId, roles');
  }

  /** An empty reservation never changes the store, whatever the roles: with
      no member reserved there is nothing to link or put in service. */
  lemma {:induction false} AsignarRolesVacio(db: Db, despachoId: nat, roles: seq<(string, int)>)
    ensures var r := AsignarRoles(db, despachoId, roles);
      r.Hecho? && r.asignados == [] ==> r.db == db
    decreases |roles|
  {
    if |roles| > 0 {
      var lote := Lote(db.personal, roles[0].0, roles[0].1);
      if |lote| >= roles[0].1 && !AlgunoVinculado(db, despachoId, lote) {
        var v := Vincular(db, despachoId, lote, 0);
        AsignarRolesVacio(v.1, despachoId, roles[1..]);
        if |lote| == 0 {
          assert v == ([], db);
        }
      }
    }
  }

  /** `asignarPersonal` returning an empty list has left the store as it was. */
  lemma AsignarPersonalVacio(db: Db, despachoId: nat, roles: seq<(string, int)>)
    ensures AsignarPersonal(db, despachoId, roles).0 == Success([]) ==> AsignarPersonal(db, despachoId, roles).1 == db
  {
    AsignarRolesVacio(db, despachoId, RolesEfectivos(roles));
  }

  /** Each reserved member is responsible exactly when no earlier member of
      the list has the same role. */
  ghost predicate ResponsableEsPrimero(l: seq<Reservado>) {
    forall i :: 0 <= i < |l| ==>
      (l[i].esResponsable <==> forall j :: 0 <= j < i ==> l[j].rolAsignado != l[i].rolAsignado)
  }

  /** No planned member has a role name the list does not ask for. */
  lemma {:induction false} PlanSinOtrosRoles(s: seq<Personal>, roles: seq<(string, int)>, x: string)
    requires forall q :: 0 <= q < |roles| ==> roles[q].0 != x
    ensures forall i :: 0 <= i < |Plan(s, roles)| ==> Plan(s, roles)[i].rolAsignado.Name() != x
    decreases |roles|
  {
    if |roles| > 0 {
      assert forall q :: 0 <= q < |roles[1..]| ==> roles[1..][q] == roles[q + 1];
      PlanSinOtrosRoles(s, roles[1..], x);
    }
  }

  /** In the plan the responsible member of each role is the first of its batch. */
  lemma {:induction false} PlanResponsables(s: seq<Personal>, roles: seq<(string, int)>)
    requires ClavesDistintas(roles)
    ensures ResponsableEsPrimero(Plan(s, roles))
    decreases |roles|
  {
    if |roles| > 0 {
      ClavesDistintasResto(roles);
      PlanResponsables(s, roles[1..]);
      PlanSinOtrosRoles(s, roles[1..], roles[0].0);
      var a := Lista(s, roles[0].0, roles[0].1);
      var b := Plan(s, roles[1..]);
      assert Plan(s, roles) == a + b;
      assert forall i :: 0 <= i < |a| ==> a[i].rolAsignado.Name() == roles[0].0;
      ResponsableConcat(a, b);
    }
  }

  /** Prefixing a list with a batch of one role whose first member alone is
      responsible keeps the responsible flags right, when the rest has no
      member of that role. */
  lemma ResponsableConcat(a: seq<Reservado>, b: seq<Reservado>)
    requires forall i :: 0 <= i < |a| ==> (a[i].esResponsable <==> i == 0)
    requires forall i, j :: 0 <= i < |a| && 0 <= j < |a| ==> a[i].rolAsignado.Name() == a[j].rolAsignado.Name()
    requires forall i, j :: 0 <= i < |a| && 0 <= j < |b| ==> a[i].rolAsignado.Name() != b[j].rolAsignado.Name()
    requires ResponsableEsPrimero(b)
    ensures ResponsableEsPrimero(a + b)
  {
    var l := a + b;
    forall i | 0 <= i < |l|
      ensures l[i].esResponsable <==> forall j :: 0 <= j < i ==> l[j].rolAsignado != l[i].rolAsignado
    {
      if i < |a| {
        if i > 0 {
          RolNombreInyectivo(a[0].rolAsignado, a[i].rolAsignado);
          assert l[0].rolAsignado == l[i].rolAsignado;
        }
      } else {
        var i' := i - |a|;
        assert l[i] == b[i'];
        forall j | 0 <= j < |a| ensures l[j].rolAsignado != l[i].rolAsignado {
          assert a[j].rolAsignado.Name() != b[i - |a|].rolAsignado.Name();
        }
        forall j | |a| <= j < i ensures l[j] == b[j - |a|] { }
        assert (forall j :: 0 <= j < i ==> l[j].rolAsignado != l[i].rolAsignado)
           <==> (forall j :: 0 <= j < i' ==> b[j].rolAsignado != b[i'].rolAsignado) by {
          if forall j :: 0 <= j < i' ==> b[j].rolAsignado != b[i'].rolAsignado {
            forall j | |a| <= j < i ensures l[j].rolAsignado != l[i].rolAsignado {
              assert l[j] == b[j - |a|];
            }
          } else {
            var j :| 0 <= j < i' && b[j].rolAsignado == b[i'].rolAsignado;
            assert l[j + |a|] == b[j];
          }
        }
      }
    }
  }

  lemma RolNombreInyectivo(x: Rol, y: Rol)
    requires x.Name() == y.Name()
    ensures x == y
  {
  }

  // ---------------------------------------------------------------------------
  // Release

  /** Row `k` is the row a link to its key reaches (the first row with that
      key), and one of `links` points to it. */
  ghost predicate Liberado(s: seq<Personal>, links: seq<Asignacion>, k: nat)
    requires k < |s|
  {
    && BuscarPersonal(s, s[k].id) == Some(k)
    && exists q :: 0 <= q < |links| && links[q].personalId == s[k].id
  }

  /** Two crew tables with the same key at every position. */
  ghost predicate MismasClaves(s: seq<Personal>, t: seq<Personal>) {
    |s| == |t| && forall k :: 0 <= k < |s| ==> s[k].id == t[k].id
  }

  lemma {:induction false} BuscarMismasClaves(s: seq<Personal>, t: seq<Personal>, id: nat)
    requires MismasClaves(s, t)
    ensures BuscarPersonal(s, id) == BuscarPersonal(t, id)
    decreases |s|
  {
    if |s| > 0 {
      assert MismasClaves(s[1..], t[1..]) by {
        forall k | 0 <= k < |s[1..]| ensures s[1..][k].id == t[1..][k].id {
          assert s[k + 1].id == t[k + 1].id;
        }
      }
      BuscarMismasClaves(s[1..], t[1..], id);
    }
  }

  /** Puts back in the available state the member each link points to, in
      link order, skipping links whose member row is gone. */
  function Liberar(db: Db, links: seq<Asignacion>): (r: Db)
    ensures MismasClaves(db.personal, r.personal)
    ensures forall k :: 0 <= k < |db.personal| ==> r.personal[k].(estado := db.personal[k].estado) == db.personal[k]
    ensures r.(personal := db.personal, eventos := db.eventos) == db
    ensures db.eventos <= r.eventos
    ensures forall i :: |db.eventos| <= i < |r.eventos| ==> r.eventos[i].PersonalEstadoCambiado? && r.eventos[i].nuevoP == PDisponible
    decreases |links|
  {
    if |links| == 0 then db
    else match BuscarPersonal(db.personal, links[0].personalId)
      case None => Liberar(db, links[1..])
      case Some(k) => Liberar(Personales.MarcarDisponible(db, k), links[1..])
  }

  /** What `Liberar` does to the crew table depends on that table alone. */
  lemma {:induction false} LiberarSoloPersonal(x: Db, y: Db, links: seq<Asignacion>)
    requires x.personal == y.personal
    ensures Liberar(x, links).personal == Liberar(y, links).personal
    decreases |links|
  {
    if |links| > 0 {
      match BuscarPersonal(x.personal, links[0].personalId)
      case None =>
        LiberarSoloPersonal(x, y, links[1..]);
      case Some(k) =>
        LiberarSoloPersonal(Personales.MarcarDisponible(x, k), Personales.MarcarDisponible(y, k), links[1..]);
    }
  }

  /** What the release does to the crew and link tables depends on those
      tables alone. */
  lemma LiberarPersonalSoloTablas(x: Db, y: Db, despachoId: nat)
    requires x.personal == y.personal && x.asignaciones == y.asignaciones
    ensures LiberarPersonal(x, despachoId).personal == LiberarPersonal(y, despachoId).personal
    ensures LiberarPersonal(x, despachoId).asignaciones == LiberarPersonal(y, despachoId).asignaciones
  {
    LiberarSoloPersonal(x, y, VinculosDe(x.asignaciones, despachoId));
  }

  /** `Liberar` makes available exactly the rows the links reach and leaves the
      status of every other row as it was. */
  lemma {:induction false} LiberarEstados(db: Db, links: seq<Asignacion>)
    ensures var r := Liberar(db, links);
      forall k :: 0 <= k < |db.personal| ==>
        r.personal[k].estado == if Liberado(db.personal, links, k) then PDisponible else db.personal[k].estado
    decreases |links|
  {
    if |links| > 0 {
      var db1 := match BuscarPersonal(db.personal, links[0].personalId)
        case None => db
        case Some(k) => Personales.MarcarDisponible(db, k);
      assert MismasClaves(db.personal, db1.personal);
      LiberarEstados(db1, links[1..]);
      var r := Liberar(db, links);
      assert r == Liberar(db1, links[1..]);
      forall k | 0 <= k < |db.personal|
        ensures r.personal[k].estado == if Liberado(db.personal, links, k) then PDisponible else db.personal[k].estado
      {
        var primero := BuscarPersonal(db.personal, links[0].personalId) == Some(k);
        assert db1.personal[k].estado == if primero then PDisponible else db.personal[k].estado;
        LiberadoCabeza(db.personal, db1.personal, links, k);
      }
    }
  }

  /** Row `k` is released by a list of links exactly when the first link
      reaches it or the rest of the list does, on a table with the same keys. */
  lemma LiberadoCabeza(s: seq<Personal>, t: seq<Personal>, links: seq<Asignacion>, k: nat)
    requires |links| > 0 && MismasClaves(s, t) && k < |s|
    ensures Liberado(s, links, k) <==>
      BuscarPersonal(s, links[0].personalId) == Some(k) || Liberado(t, links[1..], k)
  {
    BuscarMismasClaves(s, t, s[k].id);
    var primero := BuscarPersonal(s, links[0].personalId) == Some(k);
    if Liberado(t, links[1..], k) {
      var q :| 0 <= q < |links[1..]| && links[1..][q].personalId == t[k].id;
      assert links[q + 1].personalId == s[k].id;
    }
    if Liberado(s, links, k) && !primero {
      var q :| 0 <= q < |links| && links[q].personalId == s[k].id;
      assert q != 0;
      assert links[1..][q - 1].personalId == t[k].id;
    }
  }

  /** `liberarPersonal`: every member linked to the dispatch is made available
      and the dispatch's links are removed. */
  function LiberarPersonal(db: Db, despachoId: nat): (r: Db)
    ensures forall l :: l in r.asignaciones <==> l in db.asignaciones && l.despachoId != despachoId
    ensures |r.personal| == |db.personal|
    ensures forall k :: 0 <= k < |db.personal| ==> r.personal[k].(estado := db.personal[k].estado) == db.personal[k]
    ensures r.(personal := db.personal, asignaciones := db.asignaciones, eventos := db.eventos) == db
  {
    var db1 := Liberar(db, VinculosDe(db.asignaciones, despachoId));
    db1.(asignaciones := Filter((l: Asignacion) => l.despachoId != despachoId, db1.asignaciones))
  }

  /** With unique keys, a crew row is made available by the release exactly
      when some link of the dispatch points to it; every other row keeps its
      status. */
  lemma LiberarPersonalEstados(db: Db, despachoId: nat)
    requires IdsUnicos(db.personal)
    ensures var r := LiberarPersonal(db, despachoId);
      forall k :: 0 <= k < |db.personal| ==>
        r.personal[k].estado ==
          if exists j :: 0 <= j < |db.asignaciones| && db.asignaciones[j].despachoId == despachoId
                                                   && db.asignaciones[j].personalId == db.personal[k].id
          then PDisponible else db.personal[k].estado
  {
    var links := VinculosDe(db.asignaciones, despachoId);
    LiberarEstados(db, links);
    forall k | 0 <= k < |db.personal|
      ensures Liberado(db.personal, links, k) <==>
        exists j :: 0 <= j < |db.asignaciones| && db.asignaciones[j].despachoId == despachoId
                                              && db.asignaciones[j].personalId == db.personal[k].id
    {
      assert BuscarPersonal(db.personal, db.personal[k].id) == Some(k);
      if exists j :: 0 <= j < |db.asignaciones| && db.asignaciones[j].despachoId == despachoId
                                               && db.asignaciones[j].personalId == db.personal[k].id {
        var j :| 0 <= j < |db.asignaciones| && db.asignaciones[j].despachoId == despachoId
                                           && db.asignaciones[j].personalId == db.personal[k].id;
        assert db.asignaciones[j] in links;
      }
      if Liberado(db.personal, links, k) {
        var q :| 0 <= q < |links| && links[q].personalId == db.personal[k].id;
        assert links[q] in db.asignaciones;
      }
    }
  }

  /** Plan membership is membership in the first batch or in the rest's plan. */
  lemma EnPlanPartido(s: seq<Personal>, roles: seq<(string, int)>, k: nat)
    requires |roles| > 0
    ensures EnPlan(s, roles, k) <==> k in Lote(s, roles[0].0, roles[0].1) || EnPlan(s, roles[1..], k)
  {
    if EnPlan(s, roles[1..], k) {
      var i :| 0 <= i < |roles[1..]| && k in Lote(s, roles[1..][i].0, roles[1..][i].1);
      assert roles[1..][i] == roles[i + 1];
    }
    if EnPlan(s, roles, k) && k !in Lote(s, roles[0].0, roles[0].1) {
      var i :| 0 <= i < |roles| && k in Lote(s, roles[i].0, roles[i].1);
      assert roles[1..][i - 1] == roles[i];
    }
  }

  /** The key of some planned member. */
  ghost predicate TieneClave(l: seq<Reservado>, id: nat) {
    exists m :: 0 <= m < |l| && l[m].personal.id == id
  }

  lemma TieneClaveConcat(a: seq<Reservado>, b: seq<Reservado>, id: nat)
    ensures TieneClave(a + b, id) <==> TieneClave(a, id) || TieneClave(b, id)
  {
    if TieneClave(b, id) {
      var m :| 0 <= m < |b| && b[m].personal.id == id;
      assert (a + b)[m + |a|] == b[m];
    }
    if TieneClave(a + b, id) {
      var m :| 0 <= m < |a + b| && (a + b)[m].personal.id == id;
      if m >= |a| {
        assert (a + b)[m] == b[m - |a|];
      } else {
        assert (a + b)[m] == a[m];
      }
    }
    if TieneClave(a, id) {
      var m :| 0 <= m < |a| && a[m].personal.id == id;
      assert (a + b)[m] == a[m];
    }
  }

  /** With unique keys, a row is in a role's batch exactly when a member of
      the role's list carries its key. */
  lemma ListaClaves(s: seq<Personal>, rol: string, cantidad: int, k: nat)
    requires IdsUnicos(s) && k < |s|
    ensures k in Lote(s, rol, cantidad) <==> TieneClave(Lista(s, rol, cantidad), s[k].id)
  {
    var l0 := Lote(s, rol, cantidad);
    var a := Lista(s, rol, cantidad);
    assert |a| == |l0|;
    if k in l0 {
      var m :| 0 <= m < |l0| && l0[m] == k;
      assert a[m].personal == s[l0[m]].(estado := PEnServicio);
    }
    if TieneClave(a, s[k].id) {
      var m :| 0 <= m < |a| && a[m].personal.id == s[k].id;
      assert a[m].personal == s[l0[m]].(estado := PEnServicio);
      assert l0[m] < |s|;
    }
  }

  /** With unique keys, a row is in the plan exactly when some planned member
      carries its key. */
  lemma {:induction false} PlanClaves(s: seq<Personal>, roles: seq<(string, int)>, k: nat)
    requires IdsUnicos(s) && k < |s|
    ensures EnPlan(s, roles, k) <==> TieneClave(Plan(s, roles), s[k].id)
    decreases |roles|
  {
    if |roles| > 0 {
      PlanClaves(s, roles[1..], k);
      EnPlanPartido(s, roles, k);
      ListaClaves(s, roles[0].0, roles[0].1, k);
      TieneClaveConcat(Lista(s, roles[0].0, roles[0].1), Plan(s, roles[1..]), s[k].id);
    }
  }

  /** The dispatch is linked to a member of a table of crew. */
  ghost predicate Ligado(db: Db, despachoId: nat, id: nat) {
    exists j :: 0 <= j < |db.asignaciones| && db.asignaciones[j].despachoId == despachoId
                                           && db.asignaciones[j].personalId == id
  }

  /** Appending the links of a list to a link table without links of the
      dispatch links the dispatch to exactly the list's members. */
  lemma LigadoEnAnexo(db: Db, despachoId: nat, l: seq<Reservado>, id: nat)
    requires SinVinculos(db, despachoId)
    ensures Ligado(db.(asignaciones := db.asignaciones + VinculosPara(despachoId, l)), despachoId, id)
            <==> TieneClave(l, id)
  {
    var nuevos := VinculosPara(despachoId, l);
    var t := db.asignaciones + nuevos;
    if Ligado(db.(asignaciones := t), despachoId, id) {
      var j :| 0 <= j < |t| && t[j].despachoId == despachoId && t[j].personalId == id;
      if j >= |db.asignaciones| {
        assert t[j] == nuevos[j - |db.asignaciones|];
      }
    }
    if TieneClave(l, id) {
      var m :| 0 <= m < |l| && l[m].personal.id == id;
      assert t[|db.asignaciones| + m] == nuevos[m];
    }
  }

  /** After a complete reservation for a dispatch that had no links, the
      dispatch is linked to a row exactly when the row is in the plan. */
  lemma LigadoSiEnPlan(db: Db, despachoId: nat, roles: seq<(string, int)>, k: nat)
    requires IdsUnicos(db.personal) && SinVinculos(db, despachoId) && k < |db.personal|
    requires ClavesDistintas(RolesEfectivos(roles)) && !AlgunCorto(db.personal, RolesEfectivos(roles))
    ensures Ligado(AsignarPersonal(db, despachoId, roles).1, despachoId, db.personal[k].id)
            <==> EnPlan(db.personal, RolesEfectivos(roles), k)
  {
    var roles' := RolesEfectivos(roles);
    SinVinculosPlanLibre(db, despachoId, roles');
    AsignarPersonalSegunPlan(db, despachoId, roles);
    PlanClaves(db.personal, roles', k);
    var plan := Plan(db.personal, roles');
    LigadoEnAnexo(db, despachoId, plan, db.personal[k].id);
    var r1 := AsignarPersonal(db, despachoId, roles).1;
    assert Ligado(r1, despachoId, db.personal[k].id)
       == Ligado(db.(asignaciones := db.asignaciones + VinculosPara(despachoId, plan)), despachoId, db.personal[k].id);
  }

  /** A planned row was available before the reservation. */
  lemma PlanDisponible(s: seq<Personal>, roles: seq<(string, int)>, k: nat)
    requires k < |s| && EnPlan(s, roles, k)
    ensures s[k].estado == PDisponible
  {
    var i :| 0 <= i < |roles| && k in Lote(s, roles[i].0, roles[i].1);
  }

  /** Releasing after a reservation for a dispatch that had no links removes
      exactly the links the reservation added. */
  lemma ReservarYLiberarVinculos(db: Db, despachoId: nat, roles: seq<(string, int)>)
    requires IdsUnicos(db.personal) && SinVinculos(db, despachoId)
    requires ClavesDistintas(RolesEfectivos(roles))
    ensures LiberarPersonal(AsignarPersonal(db, despachoId, roles).1, despachoId).asignaciones == db.asignaciones
  {
    var roles' := RolesEfectivos(roles);
    SinVinculosPlanLibre(db, despachoId, roles');
    AsignarPersonalSegunPlan(db, despachoId, roles);
    var p := (l: Asignacion) => l.despachoId != despachoId;
    FilterTodos(p, db.asignaciones);
    if !AlgunCorto(db.personal, roles') {
      var nuevos := VinculosPara(despachoId, Plan(db.personal, roles'));
      FilterNinguno(p, nuevos);
      FilterAppend(p, db.asignaciones, nuevos);
    }
  }

  /** Reserving the crew of a dispatch that had no links and then releasing
      it gives back the crew table and the link table it started from: the
      reserved members were available and are made available again. */
  lemma ReservarYLiberar(db: Db, despachoId: nat, roles: seq<(string, int)>)
    requires IdsUnicos(db.personal) && SinVinculos(db, despachoId)
    requires ClavesDistintas(RolesEfectivos(roles))
    ensures var r := LiberarPersonal(AsignarPersonal(db, despachoId, roles).1, despachoId);
      r.personal == db.personal && r.asignaciones == db.asignaciones
  {
    var roles' := RolesEfectivos(roles);
    ReservarYLiberarVinculos(db, despachoId, roles);
    var r1 := AsignarPersonal(db, despachoId, roles).1;
    var r := LiberarPersonal(r1, despachoId);
    SinVinculosPlanLibre(db, despachoId, roles');
    AsignarPersonalSegunPlan(db, despachoId, roles);
    if AlgunCorto(db.personal, roles') {
      assert r1 == db;
      LiberarPersonalEstados(r1, despachoId);
    } else {
      forall k | 0 <= k < |db.personal| ensures r.personal[k] == db.personal[k] {
        ReservarYLiberarFila(db, despachoId, roles, k);
      }
    }
  }

  /** One crew row after reserving a full plan and releasing it again. */
  lemma ReservarYLiberarFila(db: Db, despachoId: nat, roles: seq<(string, int)>, k: nat)
    requires IdsUnicos(db.personal) && SinVinculos(db, despachoId)
    requires ClavesDistintas(RolesEfectivos(roles))
    requires !AlgunCorto(db.personal, RolesEfectivos(roles)) && k < |db.personal|
    ensures var r := LiberarPersonal(AsignarPersonal(db, despachoId, roles).1, despachoId);
      k < |r.personal| && r.personal[k] == db.personal[k]
  {
    var roles' := RolesEfectivos(roles);
    SinVinculosPlanLibre(db, despachoId, roles');
    AsignarPersonalSegunPlan(db, despachoId, roles);
    var r1 := AsignarPersonal(db, despachoId, roles).1;
    assert IdsUnicos(r1.personal);
    LiberarPersonalEstados(r1, despachoId);
    LigadoSiEnPlan(db, despachoId, roles, k);
    if EnPlan(db.personal, roles', k) {
      PlanDisponible(db.personal, roles', k);
    }
  }
}
