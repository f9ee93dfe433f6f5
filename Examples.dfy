/**
 * Consequences of the controller's rules over sequences of requests: the order of the
 * list after two creates, and one concrete session of create, update, delete and get.
 */
module IngredienteExamples {
  import opened Wrappers
  import opened Text
  import opened Models
  import opened Dtos
  import opened Schema
  import opened IngredienteRules

  /** A listing of a table of two rows puts the newer row first. */
  lemma NewestListedFirst(t: IngredienteTable, a: Ingrediente, b: Ingrediente, r: seq<IngredienteDto>)
    requires a.id != b.id && t == map[a.id := a, b.id := b]
    requires a.creadoUtc < b.creadoUtc
    requires IsListing(t, r)
    ensures r == [ToDto(b), ToDto(a)]
  {
    var da, db := ToDto(a), ToDto(b);
    assert t[a.id] == a && t[b.id] == b;
    assert multiset(r)[da] == 1 && multiset(r)[db] == 1;
    forall v | v in r ensures v == da || v == db {
      assert v.id == a.id || v.id == b.id;
    }
    assert multiset(r) == multiset{da, db} by {
      forall v ensures multiset(r)[v] == multiset{da, db}[v] {
        if v != da && v != db {
          assert v !in r;
        }
      }
    }
    assert |r| == |multiset(r)| == 2;
    assert r == [r[0], r[1]];
    assert multiset(r) == multiset{r[0], r[1]};
    assert r[0].creadoUtc >= r[1].creadoUtc;
  }

  /** Creating A and then, later, B: the list returns B before A. */
  lemma CreateTwiceThenList(da: IngredienteCreacionDto, db: IngredienteCreacionDto, usuarioId: Option<string>,
                            nowA: Timestamp, nowB: Timestamp, idA: int, idB: int, r: seq<IngredienteDto>)
    requires ToLower(da.nombre) != ToLower(db.nombre)
    requires !IsNullOrEmpty(usuarioId)
    requires idA != idB && nowA < nowB
    requires IsListing(Create(Create(map[], da, usuarioId, nowA, idA).1, db, usuarioId, nowB, idB).1, r)
    ensures r == [IngredienteDto(idB, db.nombre, db.unidadMedida, db.descripcion, nowB),
                  IngredienteDto(idA, da.nombre, da.unidadMedida, da.descripcion, nowA)]
  {
    var t1 := Create(map[], da, usuarioId, nowA, idA).1;
    var a := Ingrediente(idA, da.nombre, da.unidadMedida, da.descripcion, nowA, usuarioId);
    var b := Ingrediente(idB, db.nombre, db.unidadMedida, db.descripcion, nowB, usuarioId);
    assert t1 == map[idA := a];
    assert !NombreTomado(t1, db.nombre, None) by {
      assert !Coincide(t1[idA], db.nombre, None);
    }
    NewestListedFirst(Create(t1, db, usuarioId, nowB, idB).1, a, b, r);
  }

  /** The table after creating "Tomato" in kg at time 100, as user "u1", with id 1. */
  const TomatoKg: IngredienteTable := map[1 := Ingrediente(1, "Tomato", "kg", None, 100, Some("u1"))]

  /** The same row after switching its unit to grams. */
  const TomatoG: IngredienteTable := map[1 := Ingrediente(1, "Tomato", "g", None, 100, Some("u1"))]

  /**
   * A session on an empty table: create "Tomato" in kg, a second create "tomato" is
   * refused, an update to grams keeps id, time and creator, delete removes the row and a
   * later get finds nothing. A duplicate name is refused even for an unidentified
   * caller; a fresh name from an unidentified caller is Unauthorized.
   */
  lemma TomatoSession()
    ensures Create(map[], IngredienteCreacionDto("Tomato", "kg", None), Some("u1"), 100, 1)
            == (Created(IngredienteDto(1, "Tomato", "kg", None, 100)), TomatoKg)
    ensures Create(TomatoKg, IngredienteCreacionDto("tomato", "g", None), Some("u1"), 200, 2) == (BadRequest, TomatoKg)
    ensures Create(TomatoKg, IngredienteCreacionDto("TOMATO", "g", None), None, 200, 2) == (BadRequest, TomatoKg)
    ensures Create(TomatoKg, IngredienteCreacionDto("Onion", "kg", None), Some(""), 200, 2) == (Unauthorized, TomatoKg)
    ensures Update(TomatoKg, 1, IngredienteModificacionDto("Tomato", "g", None))
            == (Ok(IngredienteDto(1, "Tomato", "g", None, 100)), TomatoG)
    ensures Delete(TomatoG, 1) == (Ok(()), map[])
    ensures Get(Delete(TomatoG, 1).1, 1) == NotFound
  {
    assert ToLower("Tomato") == "tomato";
    assert ToLower("tomato") == "tomato";
    assert ToLower("TOMATO") == "tomato";
    assert ToLower("Onion") == "onion";
    assert Coincide(TomatoKg[1], "tomato", None);
    assert Coincide(TomatoKg[1], "TOMATO", None);
    assert !NombreTomado(TomatoKg, "Onion", None) by {
      assert !Coincide(TomatoKg[1], "Onion", None);
    }
    assert EqualsIgnoreCase("Tomato", "Tomato");
    assert Update(TomatoKg, 1, IngredienteModificacionDto("Tomato", "g", None)).0.Ok?;
    assert TomatoKg[1 := Ingrediente(1, "Tomato", "g", None, 100, Some("u1"))] == TomatoG;
    assert TomatoG - {1} == map[];
  }
}
