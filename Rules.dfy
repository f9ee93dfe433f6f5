/**
 * What each action of `IngredientesController` does to the `Ingredientes` table, as
 * functions from the table before the request to the response and the table after it.
 * The controller class in module Controllers is proved to behave exactly like these.
 */
module IngredienteRules {
  import opened Wrappers
  import opened Text
  import opened Models
  import opened Dtos
  import opened Schema

  /** The result tag of an action, with the body a successful action returns. */
  datatype ActionResult<T> = Ok(value: T) | Created(value: T) | NotFound | BadRequest | Unauthorized

  /** The filter of the uniqueness query: same name ignoring case, and not the excluded id. */
  predicate Coincide(e: Ingrediente, nombre: string, excluido: Option<int>)
  {
    (excluido.None? || e.id != excluido.value) && ToLower(e.nombre) == ToLower(nombre)
  }

  /** `AnyAsync(i => i.Nombre.ToLower() == nombre.ToLower() [&& i.Id != excluido])`. */
  predicate NombreTomado(t: IngredienteTable, nombre: string, excluido: Option<int>)
  {
    exists k | k in t :: Coincide(t[k], nombre, excluido)
  }

  // ---- GET api/ingredientes/{id} ----

  /** `FirstOrDefaultAsync(i => i.Id == id)`, then 404 or the view. */
  function Get(t: IngredienteTable, id: int): (r: ActionResult<IngredienteDto>)
    ensures r.Ok? || r.NotFound?
    ensures IngredienteKeys(t) ==> (r.Ok? <==> exists k | k in t :: t[k].id == id)
    ensures r.Ok? ==> id in t && r.value == ToDto(t[id])
  {
    if id in t then Ok(ToDto(t[id])) else NotFound
  }

  // ---- GET api/ingredientes ----

  /** `OrderByDescending(i => i.CreadoUtc)`: newest first. */
  ghost predicate NewestFirst(s: seq<IngredienteDto>)
  {
    forall i, j | 0 <= i < j < |s| :: s[i].creadoUtc >= s[j].creadoUtc
  }

  /**
   * A response of the list endpoint for table `t`: views of stored rows only, every
   * stored row exactly once, newest first.
   */
  ghost predicate IsListing(t: IngredienteTable, r: seq<IngredienteDto>)
  {
    && (forall v | v in r :: v.id in t && v == ToDto(t[v.id]))
    && (forall k | k in t :: multiset(r)[ToDto(t[k])] == 1)
    && NewestFirst(r)
  }

  /** One step of the ordering: place `x` before every older view. */
  function InsertByDate(s: seq<IngredienteDto>, x: IngredienteDto): (r: seq<IngredienteDto>)
    requires NewestFirst(s)
    ensures NewestFirst(r)
    ensures multiset(r) == multiset(s) + multiset{x}
  {
    if s == [] || s[0].creadoUtc <= x.creadoUtc then
      PrependNewest(x, s);
      [x] + s
    else
      var rest := InsertByDate(s[1..], x);
      assert s == [s[0]] + s[1..];
      forall y | y in rest ensures y.creadoUtc <= s[0].creadoUtc {
        assert y in multiset(rest);
        if y != x {
          assert y in s[1..];
        }
      }
      PrependNewest(s[0], rest);
      [s[0]] + rest
  }

  lemma PrependNewest(a: IngredienteDto, s: seq<IngredienteDto>)
    requires NewestFirst(s)
    requires forall y | y in s :: y.creadoUtc <= a.creadoUtc
    ensures NewestFirst([a] + s)
  {
  }

  // ---- POST api/ingredientes ----

  /** The row a successful create stores. */
  function NewRow(dto: IngredienteCreacionDto, usuarioId: Option<string>, now: Timestamp, freshId: int): Ingrediente
  {
    FromCreacion(dto, now).(creadoUtc := now, creadoPorUsuarioId := usuarioId).(id := freshId)
  }

  /**
   * `CreateIngrediente`: the duplicate-name check comes first, then the user check; only
   * then is a row with a fresh id, the clock and the caller as creator added.
   */
  function Create(t: IngredienteTable, dto: IngredienteCreacionDto, usuarioId: Option<string>,
                  now: Timestamp, freshId: int): (out: (ActionResult<IngredienteDto>, IngredienteTable))
    requires freshId !in t
    ensures out.0.Created? || out.0.BadRequest? || out.0.Unauthorized?
    ensures out.0.BadRequest? <==> NombreTomado(t, dto.nombre, None)
    ensures out.0.Unauthorized? <==> !NombreTomado(t, dto.nombre, None) && IsNullOrEmpty(usuarioId)
    ensures !out.0.Created? ==> out.1 == t
    ensures out.0.Created? ==>
      && out.1.Keys == t.Keys + {freshId}
      && (forall k | k in t :: out.1[k] == t[k])
      && out.1[freshId] == Ingrediente(freshId, dto.nombre, dto.unidadMedida, dto.descripcion, now, usuarioId)
      && out.0.value == ToDto(out.1[freshId])
  {
    if NombreTomado(t, dto.nombre, None) then (BadRequest, t)
    else if IsNullOrEmpty(usuarioId) then (Unauthorized, t)
    else
      var e := NewRow(dto, usuarioId, now, freshId);
      (Created(ToDto(e)), t[freshId := e])
  }

  // ---- PUT api/ingredientes/{id} ----

  /**
   * `UpdateIngrediente`: 404 for a missing id; when the name changes other than in case,
   * 400 if another row holds it; otherwise only name, unit and description are overwritten.
   */
  function Update(t: IngredienteTable, id: int, dto: IngredienteModificacionDto): (out: (ActionResult<IngredienteDto>, IngredienteTable))
    ensures out.0.Ok? || out.0.NotFound? || out.0.BadRequest?
    ensures out.0.NotFound? <==> id !in t
    ensures out.0.BadRequest? <==>
      id in t && !EqualsIgnoreCase(t[id].nombre, dto.nombre) && NombreTomado(t, dto.nombre, Some(id))
    ensures !out.0.Ok? ==> out.1 == t
    ensures out.0.Ok? ==>
      && out.1.Keys == t.Keys
      && (forall k | k in t && k != id :: out.1[k] == t[k])
      && out.1[id] == Ingrediente(t[id].id, dto.nombre, dto.unidadMedida, dto.descripcion,
                                  t[id].creadoUtc, t[id].creadoPorUsuarioId)
      && out.0.value == ToDto(out.1[id])
  {
    if id !in t then (NotFound, t)
    else
      var e := t[id];
      if !EqualsIgnoreCase(e.nombre, dto.nombre) && NombreTomado(t, dto.nombre, Some(id)) then (BadRequest, t)
      else
        var e' := ApplyModificacion(dto, e);
        (Ok(ToDto(e')), t[id := e'])
  }

  // ---- DELETE api/ingredientes/{id} ----

  function Delete(t: IngredienteTable, id: int): (out: (ActionResult<()>, IngredienteTable))
    ensures out.0.Ok? || out.0.NotFound?
    ensures out.0.NotFound? <==> id !in t
    ensures out.0.NotFound? ==> out.1 == t
    ensures out.0.Ok? ==> out.1.Keys == t.Keys - {id} && forall k | k in out.1 :: out.1[k] == t[k]
  {
    if id !in t then (NotFound, t) else (Ok(()), t - {id})
  }

  // ---- the invariant across every action ----

  lemma CreatePreservesInvariant(t: IngredienteTable, dto: IngredienteCreacionDto, usuarioId: Option<string>,
                                 now: Timestamp, freshId: int)
    requires IngredientesInvariant(t) && freshId !in t
    ensures IngredientesInvariant(Create(t, dto, usuarioId, now, freshId).1)
  {
  }

  /**
   * Update keeps names distinct ignoring case, also on the branch that skips the
   * uniqueness query because the name is unchanged up to case.
   */
  lemma UpdatePreservesInvariant(t: IngredienteTable, id: int, dto: IngredienteModificacionDto)
    requires IngredientesInvariant(t)
    ensures IngredientesInvariant(Update(t, id, dto).1)
  {
  }

  lemma DeletePreservesInvariant(t: IngredienteTable, id: int)
    requires IngredientesInvariant(t)
    ensures IngredientesInvariant(Delete(t, id).1)
  {
  }

  // ---- properties of the actions ----

  /** A name equal to a stored one in any casing is refused, whoever the caller is. */
  lemma CreateDuplicateIsBadRequest(t: IngredienteTable, k: int, dto: IngredienteCreacionDto,
                                    usuarioId: Option<string>, now: Timestamp, freshId: int)
    requires k in t && freshId !in t
    requires ToLower(dto.nombre) == ToLower(t[k].nombre)
    ensures Create(t, dto, usuarioId, now, freshId) == (BadRequest, t)
  {
  }

  /** After a successful create, get on the fresh id returns the created view. */
  lemma CreateThenGet(t: IngredienteTable, dto: IngredienteCreacionDto, usuarioId: Option<string>,
                      now: Timestamp, freshId: int)
    requires freshId !in t
    requires Create(t, dto, usuarioId, now, freshId).0.Created?
    ensures Get(Create(t, dto, usuarioId, now, freshId).1, freshId)
            == Ok(IngredienteDto(freshId, dto.nombre, dto.unidadMedida, dto.descripcion, now))
  {
  }

  /**
   * On a table that satisfies the invariant, an update that keeps the name up to case,
   * or renames to a name no row holds, succeeds.
   */
  lemma UpdateSucceedsUnlessNameTaken(t: IngredienteTable, id: int, dto: IngredienteModificacionDto)
    requires IngredientesInvariant(t) && id in t
    ensures Update(t, id, dto).0.Ok? <==>
            forall k | k in t && k != id :: ToLower(t[k].nombre) != ToLower(dto.nombre)
  {
  }

  /** Update never changes the set of ids, nor any row's id, creation time or creator. */
  lemma UpdateIsNarrow(t: IngredienteTable, id: int, dto: IngredienteModificacionDto)
    ensures var r := Update(t, id, dto).1;
      && r.Keys == t.Keys
      && forall k | k in t :: r[k].id == t[k].id && r[k].creadoUtc == t[k].creadoUtc
                              && r[k].creadoPorUsuarioId == t[k].creadoPorUsuarioId
  {
  }

  /** After a delete of `id`, get on `id` is 404 and get on every other id is unchanged. */
  lemma DeleteThenGet(t: IngredienteTable, id: int, other: int)
    requires other != id
    ensures Get(Delete(t, id).1, id) == NotFound
    ensures Get(Delete(t, id).1, other) == Get(t, other)
  {
  }

  /** Rows built from valid input are valid: create and update preserve the model's validity. */
  lemma ActionsPreserveValidity(t: IngredienteTable, cd: IngredienteCreacionDto, md: IngredienteModificacionDto,
                                usuarioId: Option<string>, now: Timestamp, freshId: int, id: int)
    requires freshId !in t
    requires forall k | k in t :: IsValid(t[k])
    requires IsValid(Ingrediente(0, cd.nombre, cd.unidadMedida, cd.descripcion, 0, None))
    requires IsValid(Ingrediente(0, md.nombre, md.unidadMedida, md.descripcion, 0, None))
    ensures var r := Create(t, cd, usuarioId, now, freshId).1; forall k | k in r :: IsValid(r[k])
    ensures var r := Update(t, id, md).1; forall k | k in r :: IsValid(r[k])
  {
  }
}
