/** The filter bar over the investments table: the option lists offered for
    entity and rate, the criteria read from the six filter fields, the records
    that pass them and the totals row added below them. */
module Filters {
  import opened Collections
  import opened Ordering
  import opened NumberFormat
  import opened Records

  // ---------------------------------------------------------------------
  // Option lists

  /** The entity names of the records, in record order. */
  function Entidades(invs: seq<Inversion>): (es: seq<string>)
    ensures |es| == |invs|
    ensures forall i :: 0 <= i < |invs| ==> es[i] == invs[i].entidad
  {
    if invs == [] then [] else Entidades(invs[..|invs| - 1]) + [invs[|invs| - 1].entidad]
  }

  /** The rates of the records, in record order. */
  function Tasas(invs: seq<Inversion>): (ts: seq<real>)
    ensures |ts| == |invs|
    ensures forall i :: 0 <= i < |invs| ==> ts[i] == invs[i].tasaEA
  {
    if invs == [] then [] else Tasas(invs[..|invs| - 1]) + [invs[|invs| - 1].tasaEA]
  }

  /** Numeric `<` on rates, the order `(a, b) => a - b` sorts by. */
  predicate RealLess(a: real, b: real)
  {
    a < b
  }

  lemma RealLessIsStrictTotalOrder()
    ensures StrictTotalOrder(RealLess)
  {
  }

  /** The entity options: each entity that occurs in the records, once, in
      JavaScript's default (code unit) string order. */
  function OpcionesEntidad(invs: seq<Inversion>): (r: seq<string>)
    ensures forall i, j :: 0 <= i < j < |r| ==> LexLess(r[i], r[j])
    ensures forall e :: e in r <==> exists inv :: inv in invs && inv.entidad == e
  {
    LexLessIsStrictTotalOrder();
    var r := SortedDistinct(Entidades(invs), LexLess);
    assert forall e :: e in r <==> exists inv :: inv in invs && inv.entidad == e by {
      forall e ensures e in r <==> exists inv :: inv in invs && inv.entidad == e {
        if e in r {
          var i :| 0 <= i < |Entidades(invs)| && Entidades(invs)[i] == e;
          assert invs[i] in invs;
        }
        if exists inv :: inv in invs && inv.entidad == e {
          var inv :| inv in invs && inv.entidad == e;
          var i :| 0 <= i < |invs| && invs[i] == inv;
          assert Entidades(invs)[i] == e;
        }
      }
    }
    r
  }

  /** The rate options: each rate that occurs in the records, once, in
      increasing numeric order. */
  function OpcionesTasa(invs: seq<Inversion>): (r: seq<real>)
    ensures forall i, j :: 0 <= i < j < |r| ==> r[i] < r[j]
    ensures forall t :: t in r <==> exists inv :: inv in invs && inv.tasaEA == t
  {
    RealLessIsStrictTotalOrder();
    var r := SortedDistinct(Tasas(invs), RealLess);
    assert forall t :: t in r <==> exists inv :: inv in invs && inv.tasaEA == t by {
      forall t ensures t in r <==> exists inv :: inv in invs && inv.tasaEA == t {
        if t in r {
          var i :| 0 <= i < |Tasas(invs)| && Tasas(invs)[i] == t;
          assert invs[i] in invs;
        }
        if exists inv :: inv in invs && inv.tasaEA == t {
          var inv :| inv in invs && inv.tasaEA == t;
          var i :| 0 <= i < |invs| && invs[i] == inv;
          assert Tasas(invs)[i] == t;
        }
      }
    }
    r
  }

  /** The entity option list is the only strictly increasing list with those
      entities: the sort of the distinct values is fully determined. */
  lemma OpcionesEntidadUnique(invs: seq<Inversion>, other: seq<string>)
    requires StrictlyIncreasing(other, LexLess)
    requires forall e :: e in other <==> exists inv :: inv in invs && inv.entidad == e
    ensures other == OpcionesEntidad(invs)
  {
    LexLessIsStrictTotalOrder();
    StrictlyIncreasingUnique(other, OpcionesEntidad(invs), LexLess);
  }

  // ---------------------------------------------------------------------
  // Criteria

  /** An upper bound of a range filter; an empty field means no bound
      (JavaScript's Infinity). */
  datatype Limite = SinLimite | Hasta(n: int)

  predicate DentroDe(x: int, l: Limite)
  {
    l.SinLimite? || x <= l.n
  }

  /** The six filter criteria once read from their fields. An empty entity or
      rate field selects every record. */
  datatype Criterios = Criterios(
    entidad: string,
    tasa: Option<real>,
    valorMin: int,
    valorMax: Limite,
    diasMin: int,
    diasMax: Limite)

  /** Reads the filter fields: the amount bounds through limpiarNumero, a
      minimum without digits being 0 and a maximum without digits being no
      bound; the day bounds through parseInt, where an unreadable minimum is
      0 and a maximum that is unreadable or 0 is no bound. */
  function LeerCriterios(entidad: string, tasa: Option<real>, valorMinText: string, valorMaxText: string,
                         diasMin: Option<int>, diasMax: Option<int>): (c: Criterios)
    ensures c.entidad == entidad && c.tasa == tasa
    ensures c.valorMin >= 0
    ensures LimpiarNumero(valorMinText) == [] ==> c.valorMin == 0
    ensures LimpiarNumero(valorMinText) != [] ==> c.valorMin == ParseAmount(valorMinText).value
    ensures c.valorMax.SinLimite? <==> LimpiarNumero(valorMaxText) == []
    ensures c.valorMax.Hasta? ==> c.valorMax.n == ParseAmount(valorMaxText).value
    ensures c.valorMax.Hasta? ==> c.valorMax.n >= 0
    ensures diasMin.None? ==> c.diasMin == 0
    ensures diasMin.Some? ==> c.diasMin == diasMin.value
    ensures c.diasMax.SinLimite? <==> diasMax.None? || diasMax.value == 0
    ensures c.diasMax.Hasta? ==> c.diasMax.n == diasMax.value
  {
    var vmin := ParseAmount(valorMinText);
    var vmax := ParseAmount(valorMaxText);
    Criterios(
      entidad,
      tasa,
      if vmin.None? then 0 else vmin.value,
      if vmax.None? then SinLimite else Hasta(vmax.value),
      DiasOrZero(diasMin),
      if diasMax.None? || diasMax.value == 0 then SinLimite else Hasta(diasMax.value))
  }

  /** All six criteria hold for the record; so no record passes when a
      minimum is above its maximum. */
  predicate Cumple(inv: Inversion, c: Criterios)
    ensures Cumple(inv, c) ==> DentroDe(c.valorMin, c.valorMax) && DentroDe(c.diasMin, c.diasMax)
  {
    && (c.entidad == "" || inv.entidad == c.entidad)
    && (c.tasa.None? || inv.tasaEA == c.tasa.value)
    && inv.valorInvertido >= c.valorMin
    && DentroDe(inv.valorInvertido, c.valorMax)
    && inv.dias >= c.diasMin
    && DentroDe(inv.dias, c.diasMax)
  }

  /** The records the table shows: those meeting every criterion, in their
      stored order. */
  function Filtrar(invs: seq<Inversion>, c: Criterios): (r: seq<Inversion>)
    ensures forall inv :: inv in r <==> inv in invs && Cumple(inv, c)
  {
    Filter(invs, (inv: Inversion) => Cumple(inv, c))
  }

  /** The shown records are the stored ones with some removed, in stored
      order, each as many times as it is stored. */
  lemma FiltrarKeepsOrder(invs: seq<Inversion>, c: Criterios)
    ensures IsSubsequence(Filtrar(invs, c), invs)
    ensures forall inv :: inv in invs && Cumple(inv, c) ==>
      multiset(Filtrar(invs, c))[inv] == multiset(invs)[inv]
  {
    FilterIsSubsequence(invs, (inv: Inversion) => Cumple(inv, c));
    forall inv | inv in invs && Cumple(inv, c)
      ensures multiset(Filtrar(invs, c))[inv] == multiset(invs)[inv]
    {
      FilterMultiplicity(invs, (inv: Inversion) => Cumple(inv, c), inv);
    }
  }

  /** With every field empty, each record whose amount and days are not
      negative is shown. */
  lemma EmptyFieldsShowEverything(invs: seq<Inversion>)
    requires forall inv :: inv in invs ==> inv.valorInvertido >= 0 && inv.dias >= 0
    ensures Filtrar(invs, LeerCriterios("", None, "", "", None, None)) == invs
  {
    var c := LeerCriterios("", None, "", "", None, None);
    FilterKeepsAll(invs, (inv: Inversion) => Cumple(inv, c));
  }

  /** A minimum above its maximum, on amount or on days, shows nothing. */
  lemma CrossedBoundsShowNothing(invs: seq<Inversion>, c: Criterios)
    requires (c.valorMax.Hasta? && c.valorMin > c.valorMax.n) || (c.diasMax.Hasta? && c.diasMin > c.diasMax.n)
    ensures Filtrar(invs, c) == []
    ensures TotalesDe(Filtrar(invs, c)) == Cero
  {
    FilterDropsAll(invs, (inv: Inversion) => Cumple(inv, c));
  }

  /** Typing into the amount fields a minimum above the maximum, both
      formatted as the fields show them, empties the table. */
  lemma TypedCrossedAmountsShowNothing(invs: seq<Inversion>, entidad: string, tasa: Option<real>,
                                       minimo: nat, maximo: nat, diasMin: Option<int>, diasMax: Option<int>)
    requires minimo > maximo
    ensures Filtrar(invs, LeerCriterios(entidad, tasa, FormatearConSeparadores(NatToString(minimo)),
                                        FormatearConSeparadores(NatToString(maximo)), diasMin, diasMax)) == []
  {
    var c := LeerCriterios(entidad, tasa, FormatearConSeparadores(NatToString(minimo)),
                           FormatearConSeparadores(NatToString(maximo)), diasMin, diasMax);
    ParseAmountReadsFormattedField(minimo);
    ParseAmountReadsFormattedField(maximo);
    CrossedBoundsShowNothing(invs, c);
  }

  // ---------------------------------------------------------------------
  // Totals

  /** The figures of the totals row. */
  datatype Totales = Totales(
    valorInvertido: int,
    rentabilidad: int,
    reteFuente: int,
    rentabilidadSinReteFuente: int,
    cuatroMil: int,
    rentabilidadTotal: int,
    valorFinal: int)

  const Cero := Totales(0, 0, 0, 0, 0, 0, 0)

  function ValorInvertidoDe(inv: Inversion): int { inv.valorInvertido }
  function RentabilidadDe(inv: Inversion): int { inv.rentabilidad }
  function ReteFuenteDe(inv: Inversion): int { inv.reteFuente }
  function CuatroMilDe(inv: Inversion): int { inv.cuatroMil }
  function RentabilidadTotalDe(inv: Inversion): int { inv.rentabilidadTotal }
  function ValorFinalDe(inv: Inversion): int { inv.valorFinal }

  /** The yield net of withholding that the table shows and adds up: the
      stored figure, or gross minus withholding when the stored figure is 0
      (records saved before that field existed). */
  function SinReteMostrada(inv: Inversion): (n: int)
    ensures inv.rentabilidadSinReteFuente != 0 ==> n == inv.rentabilidadSinReteFuente
    ensures inv.rentabilidadSinReteFuente == 0 ==> n == inv.rentabilidad - inv.reteFuente
  {
    if inv.rentabilidadSinReteFuente != 0 then inv.rentabilidadSinReteFuente
    else inv.rentabilidad - inv.reteFuente
  }

  /** Column by column, the sum over the shown records: all zero for no
      record, and the record's own figures for a single one. */
  function TotalesDe(rs: seq<Inversion>): (t: Totales)
    ensures rs == [] ==> t == Cero
    ensures |rs| == 1 ==>
      t == Totales(rs[0].valorInvertido, rs[0].rentabilidad, rs[0].reteFuente, SinReteMostrada(rs[0]),
                   rs[0].cuatroMil, rs[0].rentabilidadTotal, rs[0].valorFinal)
  {
    assert |rs| == 1 ==>
      Totales(Sum(rs, ValorInvertidoDe), Sum(rs, RentabilidadDe), Sum(rs, ReteFuenteDe), Sum(rs, SinReteMostrada),
              Sum(rs, CuatroMilDe), Sum(rs, RentabilidadTotalDe), Sum(rs, ValorFinalDe))
      == Totales(rs[0].valorInvertido, rs[0].rentabilidad, rs[0].reteFuente, SinReteMostrada(rs[0]),
                 rs[0].cuatroMil, rs[0].rentabilidadTotal, rs[0].valorFinal) by {
      if |rs| == 1 {
        SumOne(rs, ValorInvertidoDe);
        SumOne(rs, RentabilidadDe);
        SumOne(rs, ReteFuenteDe);
        SumOne(rs, SinReteMostrada);
        SumOne(rs, CuatroMilDe);
        SumOne(rs, RentabilidadTotalDe);
        SumOne(rs, ValorFinalDe);
      }
    }
    Totales(
      Sum(rs, ValorInvertidoDe),
      Sum(rs, RentabilidadDe),
      Sum(rs, ReteFuenteDe),
      Sum(rs, SinReteMostrada),
      Sum(rs, CuatroMilDe),
      Sum(rs, RentabilidadTotalDe),
      Sum(rs, ValorFinalDe))
  }

  /** Adding one more record to the running totals. */
  lemma TotalesDeSnoc(rs: seq<Inversion>, inv: Inversion)
    ensures var t, u := TotalesDe(rs), TotalesDe(rs + [inv]);
      && u.valorInvertido == t.valorInvertido + inv.valorInvertido
      && u.rentabilidad == t.rentabilidad + inv.rentabilidad
      && u.reteFuente == t.reteFuente + inv.reteFuente
      && u.rentabilidadSinReteFuente == t.rentabilidadSinReteFuente + SinReteMostrada(inv)
      && u.cuatroMil == t.cuatroMil + inv.cuatroMil
      && u.rentabilidadTotal == t.rentabilidadTotal + inv.rentabilidadTotal
      && u.valorFinal == t.valorFinal + inv.valorFinal
  {
    assert (rs + [inv])[..|rs|] == rs;
  }

  /** When every shown record keeps final value = amount + net yield, so does
      the totals row. */
  lemma TotalValorFinal(rs: seq<Inversion>)
    requires forall inv :: inv in rs ==> inv.valorFinal == inv.valorInvertido + inv.rentabilidadTotal
    ensures TotalesDe(rs).valorFinal == TotalesDe(rs).valorInvertido + TotalesDe(rs).rentabilidadTotal
  {
    SumLinear(rs, ValorFinalDe, ValorInvertidoDe, RentabilidadTotalDe);
  }
}
