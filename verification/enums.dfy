/** The closed enumerations of the database columns (the `enum(...)` columns of
    the migrations), each with its stored spelling and the parser that maps an
    incoming string back to the value, or to nothing when the column would not
    accept it. */
module Enums {
  import opened Wrappers

  /** Dispatch status (`despachos.estado`). */
  datatype EstadoDespacho =
    | Pendiente | Asignado | EnCamino | EnSitio | Trasladando | Completado | Cancelado
  {
    function Name(): string {
      match this
      case Pendiente => "pendiente"
      case Asignado => "asignado"
      case EnCamino => "en_camino"
      case EnSitio => "en_sitio"
      case Trasladando => "trasladando"
      case Completado => "completado"
      case Cancelado => "cancelado"
    }
  }

  function ParseEstadoDespacho(s: string): (r: Option<EstadoDespacho>)
    ensures r.Some? ==> r.value.Name() == s
    ensures r.None? ==> forall e: EstadoDespacho :: e.Name() != s
  {
    if s == "pendiente" then Some(Pendiente)
    else if s == "asignado" then Some(Asignado)
    else if s == "en_camino" then Some(EnCamino)
    else if s == "en_sitio" then Some(EnSitio)
    else if s == "trasladando" then Some(Trasladando)
    else if s == "completado" then Some(Completado)
    else if s == "cancelado" then Some(Cancelado)
    else None
  }

  /** Incident category (`despachos.incidente`). */
  datatype Incidente = Accidente | EmergenciaMedica | Traslado | Otro {
    function Name(): string {
      match this
      case Accidente => "accidente"
      case EmergenciaMedica => "emergencia_medica"
      case Traslado => "traslado"
      case Otro => "otro"
    }
  }

  function ParseIncidente(s: string): (r: Option<Incidente>)
    ensures r.Some? ==> r.value.Name() == s
    ensures r.None? ==> forall e: Incidente :: e.Name() != s
  {
    if s == "accidente" then Some(Accidente)
    else if s == "emergencia_medica" then Some(EmergenciaMedica)
    else if s == "traslado" then Some(Traslado)
    else if s == "otro" then Some(Otro)
    else None
  }

  /** Medical decision (`despachos.decision`); only its default is ever written. */
  datatype Decision = Ambulatoria | DecisionTraslado | DecisionPendiente

  /** Dispatch priority (`despachos.prioridad`). */
  datatype Prioridad = Baja | Media | Alta | Critica {
    function Name(): string {
      match this
      case Baja => "baja"
      case Media => "media"
      case Alta => "alta"
      case Critica => "critica"
    }
  }

  function ParsePrioridad(s: string): (r: Option<Prioridad>)
    ensures r.Some? ==> r.value.Name() == s
    ensures r.None? ==> forall e: Prioridad :: e.Name() != s
  {
    if s == "baja" then Some(Baja)
    else if s == "media" then Some(Media)
    else if s == "alta" then Some(Alta)
    else if s == "critica" then Some(Critica)
    else None
  }

  /** Vehicle tier (`ambulancias.tipo_ambulancia`). */
  datatype TipoAmbulancia = Basica | Intermedia | Avanzada | Uci {
    function Name(): string {
      match this
      case Basica => "basica"
      case Intermedia => "intermedia"
      case Avanzada => "avanzada"
      case Uci => "uci"
    }
  }

  function ParseTipoAmbulancia(s: string): (r: Option<TipoAmbulancia>)
    ensures r.Some? ==> r.value.Name() == s
    ensures r.None? ==> forall e: TipoAmbulancia :: e.Name() != s
  {
    if s == "basica" then Some(Basica)
    else if s == "intermedia" then Some(Intermedia)
    else if s == "avanzada" then Some(Avanzada)
    else if s == "uci" then Some(Uci)
    else None
  }

  /** Vehicle status (`ambulancias.estado`). */
  datatype EstadoAmbulancia = Disponible | EnServicio | Mantenimiento | FueraServicio {
    function Name(): string {
      match this
      case Disponible => "disponible"
      case EnServicio => "en_servicio"
      case Mantenimiento => "mantenimiento"
      case FueraServicio => "fuera_servicio"
    }
  }

  function ParseEstadoAmbulancia(s: string): (r: Option<EstadoAmbulancia>)
    ensures r.Some? ==> r.value.Name() == s
    ensures r.None? ==> forall e: EstadoAmbulancia :: e.Name() != s
  {
    if s == "disponible" then Some(Disponible)
    else if s == "en_servicio" then Some(EnServicio)
    else if s == "mantenimiento" then Some(Mantenimiento)
    else if s == "fuera_servicio" then Some(FueraServicio)
    else None
  }

  /** Crew role (`personal.rol`, `asignacion_personal.rol_asignado`). */
  datatype Rol = Paramedico | Conductor | Medico | Enfermero {
    function Name(): string {
      match this
      case Paramedico => "paramedico"
      case Conductor => "conductor"
      case Medico => "medico"
      case Enfermero => "enfermero"
    }
  }

  function ParseRol(s: string): (r: Option<Rol>)
    ensures r.Some? ==> r.value.Name() == s
    ensures r.None? ==> forall e: Rol :: e.Name() != s
  {
    if s == "paramedico" then Some(Paramedico)
    else if s == "conductor" then Some(Conductor)
    else if s == "medico" then Some(Medico)
    else if s == "enfermero" then Some(Enfermero)
    else None
  }

  /** Crew status (`personal.estado`). */
  datatype EstadoPersonal = PDisponible | PEnServicio | Descanso | Vacaciones {
    function Name(): string {
      match this
      case PDisponible => "disponible"
      case PEnServicio => "en_servicio"
      case Descanso => "descanso"
      case Vacaciones => "vacaciones"
    }
  }

  function ParseEstadoPersonal(s: string): (r: Option<EstadoPersonal>)
    ensures r.Some? ==> r.value.Name() == s
    ensures r.None? ==> forall e: EstadoPersonal :: e.Name() != s
  {
    if s == "disponible" then Some(PDisponible)
    else if s == "en_servicio" then Some(PEnServicio)
    else if s == "descanso" then Some(Descanso)
    else if s == "vacaciones" then Some(Vacaciones)
    else None
  }

  /** Every stored spelling parses back to its value: the spellings are distinct. */
  lemma ParseNameRoundTrip()
    ensures forall e: EstadoDespacho :: ParseEstadoDespacho(e.Name()) == Some(e)
    ensures forall e: Incidente :: ParseIncidente(e.Name()) == Some(e)
    ensures forall e: Prioridad :: ParsePrioridad(e.Name()) == Some(e)
    ensures forall e: TipoAmbulancia :: ParseTipoAmbulancia(e.Name()) == Some(e)
    ensures forall e: EstadoAmbulancia :: ParseEstadoAmbulancia(e.Name()) == Some(e)
    ensures forall e: Rol :: ParseRol(e.Name()) == Some(e)
    ensures forall e: EstadoPersonal :: ParseEstadoPersonal(e.Name()) == Some(e)
  {
  }
}
