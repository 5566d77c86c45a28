/** The calculator object: three lists of records kept in memory and mirrored
    to the browser's localStorage under one key each. Every operation that
    changes a list rewrites that list's key and no other. */
module Store {
  import opened Collections
  import opened NumberFormat
  import opened Records
  import opened Filters

  const ClaveInversiones: string := "inversiones"
  const Clave4x1000: string := "calculos4x1000"
  const ClaveFechas: string := "calculosFechas"

  /** The value stored under a key, as JSON.parse gives it back. */
  datatype Guardado =
    | GuardadoInversiones(inversiones: seq<Inversion>)
    | Guardado4x1000(calculos: seq<Calculo4x1000>)
    | GuardadoFechas(fechas: seq<CalculoFecha>)

  function InversionId(r: Inversion): int { r.id }
  function Calculo4x1000Id(r: Calculo4x1000): int { r.id }
  function CalculoFechaId(r: CalculoFecha): int { r.id }

  /** `list.filter(x => x.id !== id)`: every record but those with that id,
      in their order. */
  function SinId<T(!new)>(s: seq<T>, id: int, idOf: T -> int): (r: seq<T>)
    ensures forall x :: x in r <==> x in s && idOf(x) != id
    ensures (forall x :: x in s ==> idOf(x) != id) ==> r == s
    ensures forall x :: multiset(r)[x] == if idOf(x) != id then multiset(s)[x] else 0
  {
    var keep := (x: T) => idOf(x) != id;
    forall x ensures multiset(Filter(s, keep))[x] == if idOf(x) != id then multiset(s)[x] else 0 {
      FilterMultiplicity(s, keep, x);
    }
    assert (forall x :: x in s ==> idOf(x) != id) ==> Filter(s, keep) == s by {
      if forall x :: x in s ==> idOf(x) != id {
        FilterKeepsAll(s, keep);
      }
    }
    Filter(s, keep)
  }

  /** Deleting keeps the remaining records in their order. */
  lemma SinIdKeepsOrder<T(!new)>(s: seq<T>, id: int, idOf: T -> int)
    ensures IsSubsequence(SinId(s, id, idOf), s)
  {
    FilterIsSubsequence(s, (x: T) => idOf(x) != id);
  }

  /** Deleting a record just added, whose id no earlier record has, gives
      back the list as it was. */
  lemma {:induction false} SinIdUndoesAppend<T(!new)>(s: seq<T>, x: T, idOf: T -> int)
    requires forall y :: y in s ==> idOf(y) != idOf(x)
    ensures SinId(s + [x], idOf(x), idOf) == s
  {
    var keep := (y: T) => idOf(y) != idOf(x);
    FilterAppend(s, [x], keep);
    FilterKeepsAll(s, keep);
    assert Filter([x], keep) == [];
  }

  /** Saving an investment with a fresh id and then deleting it, as
      `CalcularInversion` followed by `EliminarInversion` do to the store,
      leaves the investments key holding the list held in memory before.
      That is the store as it was exactly when the key already held that
      list: after a fresh start, when the key was never written, it now
      holds the empty list where before it was absent. */
  lemma {:induction false} AgregarYEliminarInversion(almacen: map<string, Guardado>, s: seq<Inversion>, x: Inversion)
    requires forall y :: y in s ==> y.id != x.id
    ensures var despues := almacen[ClaveInversiones := GuardadoInversiones(s + [x])]
                                  [ClaveInversiones := GuardadoInversiones(SinId(s + [x], x.id, InversionId))];
      && despues == almacen[ClaveInversiones := GuardadoInversiones(s)]
      && (despues == almacen <==> ClaveInversiones in almacen && almacen[ClaveInversiones] == GuardadoInversiones(s))
  {
    SinIdUndoesAppend(s, x, InversionId);
    var antes := almacen[ClaveInversiones := GuardadoInversiones(s)];
    assert ClaveInversiones in antes && antes[ClaveInversiones] == GuardadoInversiones(s);
  }

  class Calculadora {
    var inversiones: seq<Inversion>
    var calculos4x1000: seq<Calculo4x1000>
    var calculosFechas: seq<CalculoFecha>
    /** localStorage, each key's JSON text already parsed. */
    ghost var almacen: map<string, Guardado>

    /** The stored copy of the investments equals the list in memory. */
    ghost predicate InversionesGuardadas()
      reads this
    {
      ClaveInversiones in almacen && almacen[ClaveInversiones] == GuardadoInversiones(inversiones)
    }

    ghost predicate Calculos4x1000Guardados()
      reads this
    {
      Clave4x1000 in almacen && almacen[Clave4x1000] == Guardado4x1000(calculos4x1000)
    }

    ghost predicate CalculosFechasGuardados()
      reads this
    {
      ClaveFechas in almacen && almacen[ClaveFechas] == GuardadoFechas(calculosFechas)
    }

    /** Loads each list from its key; a key never written (or holding null)
        gives the empty list. */
    constructor (inv: Option<seq<Inversion>>, c4: Option<seq<Calculo4x1000>>, cf: Option<seq<CalculoFecha>>)
      ensures inversiones == (if inv.None? then [] else inv.value)
      ensures calculos4x1000 == (if c4.None? then [] else c4.value)
      ensures calculosFechas == (if cf.None? then [] else cf.value)
      ensures InversionesGuardadas() <==> inv.Some?
      ensures Calculos4x1000Guardados() <==> c4.Some?
      ensures CalculosFechasGuardados() <==> cf.Some?
      ensures almacen.Keys <= {ClaveInversiones, Clave4x1000, ClaveFechas}
    {
      var m: map<string, Guardado> := map[];
      if inv.Some? { m := m[ClaveInversiones := GuardadoInversiones(inv.value)]; }
      if c4.Some? { m := m[Clave4x1000 := Guardado4x1000(c4.value)]; }
      if cf.Some? { m := m[ClaveFechas := GuardadoFechas(cf.value)]; }
      inversiones := if inv.None? then [] else inv.value;
      calculos4x1000 := if c4.None? then [] else c4.value;
      calculosFechas := if cf.None? then [] else cf.value;
      almacen := m;
    }

    /** localStorage.setItem(clave, JSON.stringify(datos)). */
    method GuardarDatos(clave: string, datos: Guardado)
      modifies this`almacen
      ensures almacen == old(almacen)[clave := datos]
    {
      almacen := almacen[clave := datos];
    }

    /** Appends the new investment record and saves the investments. */
    method CalcularInversion(id: int, entidad: string, valorInvertir: nat, tasaEA: real, dias: int,
                             reteFuentePct: Option<real>, aplica4x1000: string, rentabilidad: real)
      modifies this
      ensures inversiones == old(inversiones)
        + [NuevaInversion(id, entidad, valorInvertir, tasaEA, dias, reteFuentePct, aplica4x1000, rentabilidad)]
      ensures calculos4x1000 == old(calculos4x1000) && calculosFechas == old(calculosFechas)
      ensures almacen == old(almacen)[ClaveInversiones := GuardadoInversiones(inversiones)]
      ensures InversionesGuardadas()
    {
      var inversion := NuevaInversion(id, entidad, valorInvertir, tasaEA, dias, reteFuentePct, aplica4x1000, rentabilidad);
      inversiones := inversiones + [inversion];
      GuardarDatos(ClaveInversiones, GuardadoInversiones(inversiones));
    }

    /** Appends the 4x1000 record for the amount field, even when it holds
        no digit, and saves the 4x1000 list. */
    method Calcular4x1000(id: int, texto: string)
      modifies this
      ensures calculos4x1000 == old(calculos4x1000) + [NuevoCalculo4x1000(id, ParseAmount(texto))]
      ensures inversiones == old(inversiones) && calculosFechas == old(calculosFechas)
      ensures almacen == old(almacen)[Clave4x1000 := Guardado4x1000(calculos4x1000)]
      ensures Calculos4x1000Guardados()
    {
      var calculo := NuevoCalculo4x1000(id, ParseAmount(texto));
      calculos4x1000 := calculos4x1000 + [calculo];
      GuardarDatos(Clave4x1000, Guardado4x1000(calculos4x1000));
    }

    /** The 4x1000 form of the modal: refuses an amount that is NaN or not
        positive and changes nothing then; otherwise appends and saves like
        the main form. */
    method Calcular4x1000Modal(id: int, texto: string) returns (guardado: bool)
      modifies this
      ensures guardado <==> ParseAmount(texto).Some? && ParseAmount(texto).value > 0
      ensures guardado ==>
        && calculos4x1000 == old(calculos4x1000) + [NuevoCalculo4x1000(id, ParseAmount(texto))]
        && calculos4x1000[|calculos4x1000| - 1].Calculo4x1000?
        && calculos4x1000[|calculos4x1000| - 1].valor > 0
        && almacen == old(almacen)[Clave4x1000 := Guardado4x1000(calculos4x1000)]
      ensures !guardado ==> calculos4x1000 == old(calculos4x1000) && almacen == old(almacen)
      ensures inversiones == old(inversiones) && calculosFechas == old(calculosFechas)
    {
      var valor := ParseAmount(texto);
      if valor.None? || valor.value <= 0 {
        return false;
      }
      var calculo := NuevoCalculo4x1000(id, valor);
      calculos4x1000 := calculos4x1000 + [calculo];
      GuardarDatos(Clave4x1000, Guardado4x1000(calculos4x1000));
      guardado := true;
    }

    /** Saves a date record when a base date is given and the days added are
        not negative; `sumarDias` is what the Date library prints for the
        base date moved by that many days. */
    method GuardarCalculoFecha(id: int, fechaBase: string, dias: Option<int>, sumarDias: (string, int) -> string)
      returns (guardado: bool)
      modifies this
      ensures guardado <==> fechaBase != "" && DiasOrZero(dias) >= 0
      ensures guardado ==>
        && calculosFechas == old(calculosFechas)
             + [CalculoFecha(id, fechaBase, DiasOrZero(dias), sumarDias(fechaBase, DiasOrZero(dias)))]
        && almacen == old(almacen)[ClaveFechas := GuardadoFechas(calculosFechas)]
      ensures !guardado ==> calculosFechas == old(calculosFechas) && almacen == old(almacen)
      ensures inversiones == old(inversiones) && calculos4x1000 == old(calculos4x1000)
    {
      var diasSumar := DiasOrZero(dias);
      if fechaBase == "" || diasSumar < 0 {
        return false;
      }
      var calculo := CalculoFecha(id, fechaBase, diasSumar, sumarDias(fechaBase, diasSumar));
      calculosFechas := calculosFechas + [calculo];
      GuardarDatos(ClaveFechas, GuardadoFechas(calculosFechas));
      guardado := true;
    }

    method EliminarInversion(id: int)
      modifies this
      ensures inversiones == SinId(old(inversiones), id, InversionId)
      ensures calculos4x1000 == old(calculos4x1000) && calculosFechas == old(calculosFechas)
      ensures almacen == old(almacen)[ClaveInversiones := GuardadoInversiones(inversiones)]
      ensures InversionesGuardadas()
    {
      inversiones := SinId(inversiones, id, InversionId);
      GuardarDatos(ClaveInversiones, GuardadoInversiones(inversiones));
    }

    method EliminarCalculo4x1000(id: int)
      modifies this
      ensures calculos4x1000 == SinId(old(calculos4x1000), id, Calculo4x1000Id)
      ensures inversiones == old(inversiones) && calculosFechas == old(calculosFechas)
      ensures almacen == old(almacen)[Clave4x1000 := Guardado4x1000(calculos4x1000)]
      ensures Calculos4x1000Guardados()
    {
      calculos4x1000 := SinId(calculos4x1000, id, Calculo4x1000Id);
      GuardarDatos(Clave4x1000, Guardado4x1000(calculos4x1000));
    }

    method EliminarCalculoFecha(id: int)
      modifies this
      ensures calculosFechas == SinId(old(calculosFechas), id, CalculoFechaId)
      ensures inversiones == old(inversiones) && calculos4x1000 == old(calculos4x1000)
      ensures almacen == old(almacen)[ClaveFechas := GuardadoFechas(calculosFechas)]
      ensures CalculosFechasGuardados()
    {
      calculosFechas := SinId(calculosFechas, id, CalculoFechaId);
      GuardarDatos(ClaveFechas, GuardadoFechas(calculosFechas));
    }

    /** Empties the list named by `tipo` once the user confirms; an
        unconfirmed dialog or an unknown name changes nothing. */
    method LimpiarTabla(tipo: string, confirmado: bool)
      modifies this
      ensures confirmado && tipo == ClaveInversiones ==>
        && inversiones == [] && almacen == old(almacen)[ClaveInversiones := GuardadoInversiones([])]
      ensures confirmado && tipo == Clave4x1000 ==>
        && calculos4x1000 == [] && almacen == old(almacen)[Clave4x1000 := Guardado4x1000([])]
      ensures confirmado && tipo == ClaveFechas ==>
        && calculosFechas == [] && almacen == old(almacen)[ClaveFechas := GuardadoFechas([])]
      ensures !(confirmado && tipo == ClaveInversiones) ==> inversiones == old(inversiones)
      ensures !(confirmado && tipo == Clave4x1000) ==> calculos4x1000 == old(calculos4x1000)
      ensures !(confirmado && tipo == ClaveFechas) ==> calculosFechas == old(calculosFechas)
      ensures !confirmado || tipo !in {ClaveInversiones, Clave4x1000, ClaveFechas} ==> almacen == old(almacen)
    {
      if confirmado {
        if tipo == ClaveInversiones {
          inversiones := [];
          GuardarDatos(ClaveInversiones, GuardadoInversiones(inversiones));
        } else if tipo == Clave4x1000 {
          calculos4x1000 := [];
          GuardarDatos(Clave4x1000, Guardado4x1000(calculos4x1000));
        } else if tipo == ClaveFechas {
          calculosFechas := [];
          GuardarDatos(ClaveFechas, GuardadoFechas(calculosFechas));
        }
      }
    }

    /** The clear button of the modals: like LimpiarTabla, but only for the
        4x1000 and date lists; the investments are never cleared here. */
    method LimpiarTablaModal(tipo: string, confirmado: bool)
      modifies this
      ensures confirmado && tipo == Clave4x1000 ==>
        && calculos4x1000 == [] && almacen == old(almacen)[Clave4x1000 := Guardado4x1000([])]
      ensures confirmado && tipo == ClaveFechas ==>
        && calculosFechas == [] && almacen == old(almacen)[ClaveFechas := GuardadoFechas([])]
      ensures inversiones == old(inversiones)
      ensures !(confirmado && tipo == Clave4x1000) ==> calculos4x1000 == old(calculos4x1000)
      ensures !(confirmado && tipo == ClaveFechas) ==> calculosFechas == old(calculosFechas)
      ensures !confirmado || tipo !in {Clave4x1000, ClaveFechas} ==> almacen == old(almacen)
    {
      if confirmado {
        if tipo == Clave4x1000 {
          calculos4x1000 := [];
          GuardarDatos(Clave4x1000, Guardado4x1000(calculos4x1000));
        } else if tipo == ClaveFechas {
          calculosFechas := [];
          GuardarDatos(ClaveFechas, GuardadoFechas(calculosFechas));
        }
      }
    }

    /** The investments table body: the records meeting the criteria, the
        totals accumulated record by record, and whether the totals row is
        added (only below at least one record). */
    method AplicarFiltros(c: Criterios) returns (filtradas: seq<Inversion>, totales: Totales, conFilaTotales: bool)
      ensures filtradas == Filtrar(inversiones, c)
      ensures totales == TotalesDe(filtradas)
      ensures conFilaTotales <==> filtradas != []
    {
      filtradas := Filtrar(inversiones, c);
      totales := Cero;
      var i := 0;
      while i < |filtradas|
        invariant 0 <= i <= |filtradas|
        invariant totales == TotalesDe(filtradas[..i])
      {
        var inv := filtradas[i];
        TotalesDeSnoc(filtradas[..i], inv);
        totales := totales.(
          valorInvertido := totales.valorInvertido + inv.valorInvertido,
          rentabilidad := totales.rentabilidad + inv.rentabilidad,
          reteFuente := totales.reteFuente + inv.reteFuente,
          rentabilidadSinReteFuente := totales.rentabilidadSinReteFuente + SinReteMostrada(inv),
          cuatroMil := totales.cuatroMil + inv.cuatroMil,
          rentabilidadTotal := totales.rentabilidadTotal + inv.rentabilidadTotal,
          valorFinal := totales.valorFinal + inv.valorFinal);
        assert filtradas[..i + 1] == filtradas[..i] + [inv];
        i := i + 1;
      }
      assert filtradas[..i] == filtradas;
      conFilaTotales := |filtradas| > 0;
    }
  }
}
