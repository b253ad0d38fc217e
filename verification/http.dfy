/** The HTTP status codes the REST controllers answer with. */
module Http {
  const Ok: int := 200
  const Creado: int := 201
  const NoEncontrado: int := 404
  const DatosInvalidos: int := 422
  const ErrorInterno: int := 500
  const SinRecursos: int := 503
}
