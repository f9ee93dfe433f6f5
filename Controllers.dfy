/**
 * `IngredientesController` (Controllers/IngredientesController.cs). Each action reads
 * and updates the `Ingredientes` table of the context it holds. The framework's
 * services arrive as parameters: the clock (`DateTime.UtcNow`) as `now`, the caller
 * (`userManager.GetUserId(User)`) as `usuarioId`, and the identity column's next value
 * as `freshId`, an id no row has.
 */
module Controllers {
  import opened Wrappers
  import opened Text
  import opened Models
  import opened Dtos
  import opened Schema
  import opened IngredienteRules

  /** Some element of a non-empty set of keys: the order in which the store visits rows. */
  method PickKey<K>(keys: set<K>) returns (k: K)
    requires keys != {}
    ensures k in keys
  {
    k :| k in keys;
  }

  class IngredientesController {
    const context: ApplicationDbContext

    constructor (context: ApplicationDbContext)
      ensures this.context == context
    {
      this.context := context;
    }

    /** The uniqueness query: does some row other than `excluido` have this name, ignoring case? */
    method AnyNombre(nombre: string, excluido: Option<int>) returns (existe: bool)
      ensures existe <==> exists k | k in context.ingredientes ::
        (excluido.None? || context.ingredientes[k].id != excluido.value)
        && ToLower(context.ingredientes[k].nombre) == ToLower(nombre)
    {
      var t := context.ingredientes;
      var pendientes := t.Keys;
      existe := false;
      while pendientes != {} && !existe
        invariant pendientes <= t.Keys
        invariant existe ==> NombreTomado(t, nombre, excluido)
        invariant !existe ==> forall k | k in t && k !in pendientes :: !Coincide(t[k], nombre, excluido)
        decreases pendientes
      {
        var k := PickKey(pendientes);
        existe := Coincide(t[k], nombre, excluido);
        pendientes := pendientes - {k};
      }
    }

    /** GET api/ingredientes: every row once, newest first; the table is only read. */
    method GetIngredientes() returns (r: seq<IngredienteDto>)
      requires context.Valid()
      ensures IsListing(context.ingredientes, r)
    {
      var t := context.ingredientes;
      var pendientes := t.Keys;
      r := [];
      while pendientes != {}
        invariant pendientes <= t.Keys
        invariant forall v | v in r :: v.id in t && v.id !in pendientes && v == ToDto(t[v.id])
        invariant forall k | k in t && k !in pendientes :: multiset(r)[ToDto(t[k])] == 1
        invariant NewestFirst(r)
        decreases pendientes
      {
        var k := PickKey(pendientes);
        var x := ToDto(t[k]);
        assert x.id == k;
        var r' := InsertByDate(r, x);
        forall v | v in r' ensures v in r || v == x {
          assert v in multiset(r');
        }
        r := r';
        pendientes := pendientes - {k};
      }
    }

    /** GET api/ingredientes/{id}. */
    method GetIngrediente(id: int) returns (r: ActionResult<IngredienteDto>)
      requires context.Valid()
      ensures r == Get(context.ingredientes, id)
      ensures r.Ok? ==> r.value.id == id
    {
      if id !in context.ingredientes {
        return NotFound;
      }
      r := Ok(ToDto(context.ingredientes[id]));
    }

    /** POST api/ingredientes. */
    method CreateIngrediente(dto: IngredienteCreacionDto, usuarioId: Option<string>, now: Timestamp, freshId: int)
      returns (result: ActionResult<IngredienteDto>)
      requires context.Valid()
      requires freshId !in context.ingredientes
      modifies context
      ensures context.Valid()
      ensures (result, context.ingredientes) == Create(old(context.ingredientes), dto, usuarioId, now, freshId)
      ensures context.categorias == old(context.categorias)
    {
      var existe := AnyNombre(dto.nombre, None);
      if existe {
        return BadRequest;
      }
      if IsNullOrEmpty(usuarioId) {
        return Unauthorized;
      }
      var ingrediente := FromCreacion(dto, now);
      ingrediente := ingrediente.(creadoUtc := now, creadoPorUsuarioId := usuarioId);
      // the identity column assigns the id on insert
      ingrediente := ingrediente.(id := freshId);
      CreatePreservesInvariant(context.ingredientes, dto, usuarioId, now, freshId);
      context.ingredientes := context.ingredientes[freshId := ingrediente];
      result := Created(ToDto(ingrediente));
    }

    /** PUT api/ingredientes/{id}. */
    method UpdateIngrediente(id: int, dto: IngredienteModificacionDto) returns (result: ActionResult<IngredienteDto>)
      requires context.Valid()
      modifies context
      ensures context.Valid()
      ensures (result, context.ingredientes) == Update(old(context.ingredientes), id, dto)
      ensures context.categorias == old(context.categorias)
    {
      if id !in context.ingredientes {
        return NotFound;
      }
      var ingrediente := context.ingredientes[id];
      if !EqualsIgnoreCase(ingrediente.nombre, dto.nombre) {
        var existe := AnyNombre(dto.nombre, Some(id));
        if existe {
          return BadRequest;
        }
      }
      ingrediente := ApplyModificacion(dto, ingrediente);
      UpdatePreservesInvariant(context.ingredientes, id, dto);
      context.ingredientes := context.ingredientes[id := ingrediente];
      result := Ok(ToDto(ingrediente));
    }

    /** DELETE api/ingredientes/{id}. */
    method DeleteIngrediente(id: int) returns (result: ActionResult<()>)
      requires context.Valid()
      modifies context
      ensures context.Valid()
      ensures (result, context.ingredientes) == Delete(old(context.ingredientes), id)
      ensures context.categorias == old(context.categorias)
    {
      if id !in context.ingredientes {
        return NotFound;
      }
      context.ingredientes := context.ingredientes - {id};
      result := Ok(());
    }
  }
}
