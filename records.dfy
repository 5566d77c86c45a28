/** The three kinds of record the calculator stores, and the arithmetic that
    fills them in: the 4x1000 levy on a transfer, the withholding and levy on
    the yield of a fixed-term deposit, and the date-offset record. Every
    stored amount is rounded on its own with Math.round. */
module Records {
  import opened Collections
  import opened NumberFormat

  /** The Colombian financial-transaction levy: four per thousand. */
  const CuatroPorMil: real := 0.004

  // ---------------------------------------------------------------------
  // 4x1000 records

  /** A record of the 4x1000 table. When the amount field held no digit,
      parseFloat gives NaN and every amount of the record is NaN (stored as
      null): `CalculoSinValor`. */
  datatype Calculo4x1000 =
    | Calculo4x1000(id: int, valor: int, cuatroMil: int, valorTotal: int, valorTransferir: int)
    | CalculoSinValor(id: int)

  /** `parseFloat(limpiarNumero(text))` on an amount field: NaN (`None`)
      when the field holds no digit, otherwise the number its digits spell. */
  function ParseAmount(text: string): (v: Option<nat>)
    ensures v.None? <==> LimpiarNumero(text) == []
  {
    var d := LimpiarNumero(text);
    if d == [] then None else Some(DigitsValue(d))
  }

  /** An amount field shows formatearConSeparadores of what was typed; reading
      it back gives the typed amount. */
  lemma ParseAmountReadsFormattedField(n: nat)
    ensures ParseAmount(FormatearConSeparadores(NatToString(n))) == Some(n)
  {
    FormatThenCleanDigits(NatToString(n));
    NatToStringValue(n);
  }

  /** The record calcular4x1000 builds for an amount: the levy, the amount
      net of it and the amount to transfer, each rounded on its own. */
  function NuevoCalculo4x1000(id: int, valor: Option<nat>): (c: Calculo4x1000)
    ensures c.id == id
    ensures c.CalculoSinValor? <==> valor.None?
    ensures valor.Some? ==>
      var v := valor.value as real;
      && c.valor == valor.value
      && RoundsTo(v * CuatroPorMil, c.cuatroMil)
      && RoundsTo(v - v * CuatroPorMil, c.valorTotal)
      && RoundsTo(v + v * CuatroPorMil, c.valorTransferir)
  {
    match valor
    case None => CalculoSinValor(id)
    case Some(n) =>
      var v := n as real;
      var levy := v * CuatroPorMil;
      Calculo4x1000(id, Round(v), Round(levy), Round(v - levy), Round(v + levy))
  }

  /** What the independent rounding does to a whole amount `v`: the levy is
      v/250 rounded half up, the amount to transfer is exactly amount plus
      levy, and the net amount is amount minus levy except when v/250 ends
      in exactly one half, where it is one more. */
  lemma {:induction false} Calculo4x1000Exact(id: int, v: nat)
    ensures var c := NuevoCalculo4x1000(id, Some(v));
      && c.cuatroMil == v / 250 + (if v % 250 >= 125 then 1 else 0)
      && c.valorTransferir == c.valor + c.cuatroMil
      && c.valorTotal == c.valor - c.cuatroMil + (if v % 250 == 125 then 1 else 0)
  {
    var c := NuevoCalculo4x1000(id, Some(v));
    var q, r := v / 250, v % 250;
    var levy := (v as real) * CuatroPorMil;
    assert levy == q as real + (r as real) / 250.0;
    var up := if r >= 125 then 1 else 0;
    assert RoundsTo(levy, q + up);
    RoundsToUnique(levy, c.cuatroMil, q + up);
    RoundShift(v, levy);
    assert v as real + levy == (v as real) + (v as real) * CuatroPorMil;
    var down := if r > 125 then 1 else 0;
    assert RoundsTo(v as real - levy, v - q - down);
    RoundsToUnique(v as real - levy, c.valorTotal, v - q - down);
  }

  /** The figures for a transfer of 1000: levy 4, net 996, to transfer 1004. */
  lemma Calculo4x1000OfThousand()
    ensures NuevoCalculo4x1000(0, Some(1000)) == Calculo4x1000(0, 1000, 4, 996, 1004)
  {
    Calculo4x1000Exact(0, 1000);
  }

  // ---------------------------------------------------------------------
  // Investment records

  /** A record of the investments table. `tasaEA` is the effective annual
      rate in percent as typed; the amounts are whole pesos. */
  datatype Inversion = Inversion(
    id: int,
    entidad: string,
    valorInvertido: int,
    tasaEA: real,
    dias: int,
    rentabilidad: int,
    reteFuente: int,
    rentabilidadSinReteFuente: int,
    cuatroMil: int,
    rentabilidadTotal: int,
    valorFinal: int)

  /** `parseFloat(reteFuente) || 0`: an unreadable withholding rate is 0. */
  function RetencionOrZero(pct: Option<real>): (r: real)
    ensures r == 0.0 <==> pct.None? || pct.value == 0.0
    ensures r != 0.0 ==> r == pct.value
  {
    if pct.None? then 0.0 else pct.value
  }

  /** The record calcularInversion stores. `rentabilidad` is the gross yield
      the daily compounding produced; from it the withholding tax, the
      optional 4x1000 on the yield, the net yield and the final value are
      derived, and every amount is rounded on its own. */
  function NuevaInversion(id: int, entidad: string, valorInvertir: nat, tasaEA: real, dias: int,
                          reteFuentePct: Option<real>, aplica4x1000: string, rentabilidad: real): (r: Inversion)
    ensures r.id == id && r.entidad == entidad && r.tasaEA == tasaEA && r.dias == dias
    ensures r.valorInvertido == valorInvertir
    ensures
      var rete := rentabilidad * (RetencionOrZero(reteFuentePct) / 100.0);
      var levy := if aplica4x1000 == "si" then rentabilidad * CuatroPorMil else 0.0;
      && RoundsTo(rentabilidad, r.rentabilidad)
      && RoundsTo(rete, r.reteFuente)
      && RoundsTo(rentabilidad - rete, r.rentabilidadSinReteFuente)
      && RoundsTo(levy, r.cuatroMil)
      && RoundsTo(rentabilidad - rete - levy, r.rentabilidadTotal)
    ensures aplica4x1000 != "si" ==> r.cuatroMil == 0
    ensures r.valorFinal == r.valorInvertido + r.rentabilidadTotal
  {
    var rete := rentabilidad * (RetencionOrZero(reteFuentePct) / 100.0);
    var levy := if aplica4x1000 == "si" then rentabilidad * CuatroPorMil else 0.0;
    var neta := rentabilidad - rete - levy;
    RoundShift(valorInvertir, neta);
    Inversion(id, entidad, Round(valorInvertir as real), tasaEA, dias,
              Round(rentabilidad), Round(rete), Round(rentabilidad - rete), Round(levy),
              Round(neta), Round(valorInvertir as real + neta))
  }

  /** Rounding each amount on its own lets the stored net yield drift from
      gross minus withholding minus levy, by at most one peso: each of the
      four roundings moves its figure by at most one half, so the drift is
      an integer below two in size. */
  lemma NetYieldDriftAtMostOne(id: int, entidad: string, valorInvertir: nat, tasaEA: real, dias: int,
                               reteFuentePct: Option<real>, aplica4x1000: string, rentabilidad: real)
    ensures var r := NuevaInversion(id, entidad, valorInvertir, tasaEA, dias, reteFuentePct, aplica4x1000, rentabilidad);
      -1 <= r.rentabilidadTotal - (r.rentabilidad - r.reteFuente - r.cuatroMil) <= 1
  {
  }

  // ---------------------------------------------------------------------
  // Date-offset records

  /** A record of the dates table: the base date as typed (yyyy-mm-dd), the
      days added and the resulting date as the Date library printed it. */
  datatype CalculoFecha = CalculoFecha(id: int, fechaBase: string, diasSumados: int, fechaResultado: string)

  /** `parseInt(dias) || 0`: an unreadable day count is 0. */
  function DiasOrZero(parsed: Option<int>): (r: int)
    ensures r == 0 <==> parsed.None? || parsed.value == 0
    ensures r != 0 ==> r == parsed.value
  {
    if parsed.None? then 0 else parsed.value
  }
}
