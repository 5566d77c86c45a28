# Calculadora de inversiones — a verified model of its core

The calculator is a single-page browser application (`CalculadoraInversiones`
in `js/script.js`) that keeps three lists of records and mirrors each to
`localStorage` under its own key:

- **inversiones** — fixed-term deposits (CDT): an entity, an amount, an
  effective annual rate and a number of days. The gross yield is computed
  first. Withholding tax (retención en la fuente), the optional 4x1000 levy
  on the yield, the net yield and the final value are derived from it.
- **calculos4x1000** — the Colombian financial-transaction levy of four per
  thousand: for an amount, the levy, the amount net of it and the amount to
  transfer.
- **calculosFechas** — a base date plus a number of days.

Amount fields are typed with thousands separators (`1.234.567`).
`limpiarNumero` strips everything but digits. `formatearConSeparadores` and
the integer branch of `formatearNumero` insert the separators. The
investments table has a filter bar: entity and rate option lists, amount and
day ranges. Below the filtered rows it shows a TOTALES row. A click on a
column header sorts that table's data rows by the column, and the TOTALES row
stays last.

The Dafny modules follow that structure:

| module | file | what it holds |
|---|---|---|
| `Collections` | `collections.dfy` | `Array.prototype.filter` as `Filter`, sums, subsequences |
| `Ordering` | `ordering.dfy` | JavaScript's string order (UTF-16 code units); `[...new Set(xs)].sort()` |
| `NumberFormat` | `number_format.dfy` | `limpiarNumero`; the separator regular expression `/\B(?=(\d{3})+(?!\d))/g`; `formatearConSeparadores`; `Math.round`; `formatearNumero(x, false)`; the key of a number cell |
| `Records` | `records.dfy` | the three record types and the arithmetic of `calcularInversion` and `calcular4x1000` |
| `Filters` | `filters.dfy` | `actualizarOpcionesFiltros`, the criteria and predicate of `aplicarFiltros`, the totals |
| `Store` | `store.dfy` | class `Calculadora`: the three lists, storage as a ghost map, and every operation that changes them |
| `TableSort` | `table_sort.dfy` | `ordenarTabla`: header state, the stable sort by column, the TOTALES row; class `TablaOrdenable` |

Amounts are exact rationals (`real`) and records hold whole pesos (`int`).
`Math.round(x)` is `floor(x + 1/2)`, specified as the unique `n` with
`x - 1/2 < n <= x + 1/2`. The record identifier `Date.now()` is a parameter.
So are the date printer (`sumarDias`), the date parser of the sort
(`parsearFecha`) and the user's answer to the confirmation dialog
(`confirmado`).

## Model

| member | source | states |
|---|---|---|
| `NumberFormat.LimpiarNumero` | js/script.js:158-160 | The result holds only digits: it is a subsequence of the input that keeps every copy of every digit and nothing else, in input order. A digit string comes back unchanged. |
| `NumberFormat.FormatearConSeparadores` | js/script.js:163-176 | The result is empty exactly when the text is empty or `parseFloat` of it is NaN. Leading ECMAScript white space and a sign are allowed, and `Infinity` counts as a number. |
| `NumberFormat.LimpiarUndoesSeparators` | js/script.js:158-176 | Cleaning a formatted text gives the same digits as cleaning the original text: the separators add no digit and lose none. |
| `NumberFormat.FormatThenCleanDigits` | js/script.js:158-176 | Round trip of the amount fields: a non-empty digit string, formatted then cleaned, is the same string. |
| `NumberFormat.InsertSeparatorsKeepsDigits` | js/script.js:175 | The separator replacement only inserts '.': cleaning its result gives the same digits as cleaning its input. |
| `NumberFormat.InsertSeparatorsGroupsDigits` | js/script.js:571 | On a non-empty digit string, the replacement equals an independent grouping: a lead of one to three digits, then ".ddd" groups. |
| `NumberFormat.MinusSignHasNoSeparator` | js/script.js:566-571 | `\B` never matches between a minus sign and the first digit, so a negative numeral is grouped exactly like its magnitude, behind the sign. |
| `NumberFormat.FormatearNumero` | js/script.js:539-575 | `formatearNumero(x, false)` is the sign of `Math.round(x)` followed by the grouping of its magnitude. NaN, null and undefined print as "0". |
| `NumberFormat.FormatDigitsIsGrouped` | js/script.js:174-175 | On a digit string, the regular-expression replacement equals an independent grouping: a lead of one to three digits, then ".ddd" groups. |
| `NumberFormat.FormatGroupsOfThree` | js/script.js:163-176 | Split at '.', a formatted digit string gives digit groups. The first has one to three digits and every later one exactly three. Joined, they spell the input. |
| `NumberFormat.Round` | js/script.js:229-232 | `Math.round`: the result is within one half of the value, and a half rounds up. |
| `NumberFormat.RoundsToUnique` | js/script.js:229-232 | Exactly one integer rounds from a given value. |
| `NumberFormat.NatToStringValue` | js/script.js:566 | The decimal numeral `toString` writes for a natural number reads back as that number. |
| `NumberFormat.StripFormattedInteger` | js/script.js:539-575 | "$" followed by `formatearNumero(n, false)`, with '$' and '.' removed, is the plain numeral of `n`, negative numbers included. |
| `NumberFormat.NumberCellKey` | js/script.js:661-662 | For a cell holding only digits, '$' and '.', the sort key is the value of its digits: '$' and every '.' are ignored, so "12.5" reads as 125. |
| `NumberFormat.LeadingIntegerOfNumeral` | js/script.js:661-662 | `parseFloat` reads an integer's numeral back as that integer. |
| `NumberFormat.NumberCellKeyReadsFormattedAmount` | js/script.js:661-662 | A number cell the table wrote as "$" + `formatearNumero(x, false)` sorts by `Math.round(x)`. A NaN amount sorts as 0. |
| `Records.ParseAmount` | js/script.js:221 | `parseFloat(limpiarNumero(text))` is NaN exactly when the text holds no digit. |
| `Records.ParseAmountReadsFormattedField` | js/script.js:158-176 | A field showing the formatted amount `n` is read back as `n`. |
| `Records.NuevoCalculo4x1000` | js/script.js:220-233 | A field without digits gives a record with no amounts. Otherwise the record holds the amount, and the levy (0.004 × amount), the net amount and the amount to transfer, each rounded on its own. |
| `Records.Calculo4x1000Exact` | js/script.js:223-233 | For a whole amount `v`: the levy is `v/250` rounded half up, and the amount to transfer is exactly amount + levy. The net amount is amount − levy, except that it is one more when `v mod 250 = 125`. |
| `Records.Calculo4x1000OfThousand` | js/script.js:223-233 | An amount of 1000 gives levy 4, net 996 and amount to transfer 1004. |
| `Records.NuevaInversion` | js/script.js:179-206 | Withholding is yield × rate/100, with an unreadable rate read as 0. The levy is yield × 0.004 only when the select says "si"; otherwise `cuatroMil` is 0. Net yield and the other amounts are each rounded. `valorFinal` equals `valorInvertido + rentabilidadTotal` exactly. |
| `Records.RetencionOrZero` | js/script.js:184 | `parseFloat(reteFuente) \|\| 0` is 0 exactly when the rate is unreadable or 0, and the rate otherwise. |
| `Records.DiasOrZero` | js/script.js:266 | `parseInt(dias) \|\| 0` is 0 exactly when the count is unreadable or 0, and the count otherwise. |
| `Records.NetYieldDriftAtMostOne` | js/script.js:192-206 | The stored net yield differs from stored gross − withholding − levy by at most one peso. |
| `Ordering.LexLessIsUtf16Order` | js/script.js:315 | The character-by-character comparison `LexLess` is exactly ECMAScript's comparison of the two strings' UTF-16 code unit sequences, surrogate pairs included. |
| `Ordering.DistinctCharsUnits` | js/script.js:315 | Two distinct characters compare as code units by their place in code unit order, whatever follows them. |
| `Ordering.UnitsLessCommonPrefix` | js/script.js:315 | A common prefix of code units does not change the comparison. |
| `Ordering.SupplementaryBeforePrivateUse` | js/script.js:315 | U+10000 sorts before U+E000, as in JavaScript, although its code point is larger. |
| `Ordering.LexLessIsStrictTotalOrder` | js/script.js:315 | The UTF-16 code unit order the default `sort()` uses on strings is a strict total order. |
| `Ordering.SortedDistinct` | js/script.js:315-316 | `[...new Set(xs)].sort(cmp)`: strictly increasing, without repeats, holding exactly the values of `xs`. |
| `Ordering.StrictlyIncreasingUnique` | js/script.js:315-316 | Two strictly increasing lists with the same elements are equal. |
| `Filters.OpcionesEntidad` | js/script.js:315 | The entity options are strictly increasing in string order. They hold an entity exactly when some investment has it. |
| `Filters.OpcionesTasa` | js/script.js:316 | The rate options are strictly increasing numerically. They hold a rate exactly when some investment has it. |
| `Filters.OpcionesEntidadUnique` | js/script.js:315 | Any strictly increasing list holding exactly the entities is the option list. |
| `Filters.LeerCriterios` | js/script.js:353-358 | An amount bound typed with digits is the value of those digits. A minimum amount without digits is 0, and a maximum without digits is no bound. A minimum day count that does not parse is 0. A maximum day count that does not parse, or is 0, is no bound. Entity and rate pass through. |
| `Filters.Cumple` | js/script.js:361-370 | A record can pass only when neither range is crossed: each minimum is within its maximum. |
| `Filters.Filtrar` | js/script.js:361-370 | A record is shown exactly when it is stored and meets all six criteria. |
| `Filters.FiltrarKeepsOrder` | js/script.js:361-370 | The shown records are a subsequence of the stored ones, in stored order. A record that passes keeps its multiplicity. |
| `Filters.EmptyFieldsShowEverything` | js/script.js:353-370 | With every filter field empty, the shown list is the whole stored list (amounts and days not negative). |
| `Filters.CrossedBoundsShowNothing` | js/script.js:353-370 | A minimum above its maximum, on amount or on days, shows no record, and the totals are zero. |
| `Filters.TypedCrossedAmountsShowNothing` | js/script.js:353-370 | Typing a minimum amount above the maximum, both as the fields format them, shows no record. |
| `Filters.TotalesDe` | js/script.js:373-408 | The totals of no record are all zero, and the totals of a single record are that record's figures. The net-of-withholding column uses the shown figure. |
| `Filters.SinReteMostrada` | js/script.js:392-404 | The net-of-withholding figure shown is the stored one when it is not 0. Otherwise it is gross − withholding. |
| `Filters.TotalesDeSnoc` | js/script.js:400-407 | Each totals field grows by exactly the added record's field. The net-of-withholding column grows by the shown figure. |
| `Filters.TotalValorFinal` | js/script.js:373-408 | When every record has final value = amount + net yield, so does the totals row. |
| `Store.SinId` | js/script.js:480-498 | `filter(x => x.id !== id)` keeps every copy of each record with another id and no copy of those with that id. When no record has that id, the list is unchanged. |
| `Store.SinIdKeepsOrder` | js/script.js:480-498 | Deleting keeps the remaining records in their order. |
| `Store.AgregarYEliminarInversion` | js/script.js:486-490 | Saving an investment with a fresh id and deleting it leaves the investments key holding the list in memory before. The store is restored exactly when that key already held that list. |
| `Store.SinIdUndoesAppend` | js/script.js:209-210 | Deleting, by its id, a record just appended with a fresh id restores the list. |
| `Store.Calculadora.constructor` | js/script.js:3-8 | Each list is loaded from its key, and a missing key gives the empty list. Storage matches memory exactly for the keys that were present. |
| `Store.Calculadora.GuardarDatos` | js/script.js:578-580 | Only the named key of storage changes, and it changes to the given list. |
| `Store.Calculadora.CalcularInversion` | js/script.js:179-217 | Appends exactly one investment record and saves the investments key. The other lists are unchanged and storage equals memory for that key. |
| `Store.Calculadora.Calcular4x1000` | js/script.js:220-241 | Appends exactly one 4x1000 record, even for a field without digits, and saves that key only. |
| `Store.Calculadora.Calcular4x1000Modal` | js/script.js:791-831 | Saves exactly when the amount is a number greater than 0; the appended record then has that positive amount. A NaN or non-positive amount changes neither memory nor storage. |
| `Store.Calculadora.GuardarCalculoFecha` | js/script.js:264-295 | Saves exactly when a base date is given and the day count (unreadable read as 0) is not negative. It then appends one record and rewrites that key only. Otherwise nothing changes. |
| `Store.Calculadora.EliminarInversion` | js/script.js:487-491 | Removes the investments with the id and saves that key only. The other lists are unchanged. |
| `Store.Calculadora.EliminarCalculo4x1000` | js/script.js:494-498 | Removes the 4x1000 records with the id and saves that key only. |
| `Store.Calculadora.EliminarCalculoFecha` | js/script.js:480-484 | Removes the date records with the id and saves that key only. |
| `Store.Calculadora.LimpiarTabla` | js/script.js:501-536 | Only a confirmed dialog with one of the three key names empties that list and its key. Everything else is unchanged. An unconfirmed dialog or an unknown name changes nothing. |
| `Store.Calculadora.LimpiarTablaModal` | js/script.js:1013-1046 | Same as LimpiarTabla, for the 4x1000 and date lists only. The investments are never touched. |
| `Store.Calculadora.AplicarFiltros` | js/script.js:348-431 | The rows are the filtered investments. The running totals equal the per-field sums over them. The totals row is added exactly when some row is shown. |
| `TableSort.Insertar` | js/script.js:648-689 | Insertion adds exactly the one element (as a multiset). |
| `TableSort.StableSort` | js/script.js:648-689 | The sorted rows are a permutation of the input. |
| `TableSort.StableSortOrdenada` | js/script.js:648-689 | No sorted element is strictly before an earlier one under the comparator (ascending or reversed). |
| `TableSort.StableSortEstable` | js/script.js:648-689 | Stability: for each key, the elements with that key keep their input order. |
| `TableSort.OrdenadaUnique` | js/script.js:648-689 | Two ordered lists with the same elements of each key, in the same order, are equal: a stable sort's result is determined. |
| `TableSort.ResortReturns` | js/script.js:634-689 | Sorting one way, then the other, then the first way again gives the first order back. |
| `TableSort.UltimaTotales` | js/script.js:617-628 | The kept totals row is the last TOTALES row of the body: every later row is a data row. There is none exactly when every row is a data row. |
| `TableSort.Encabezados` | js/script.js:634-645 | After a click exactly the clicked header is marked. It becomes ascending exactly when it was not ascending. |
| `TableSort.EncabezadosMarkOne` | js/script.js:634-645 | Clicking the same header again flips ascending and descending, and a second flip restores the marks. |
| `TableSort.Clic` | js/script.js:607-701 | The header count is kept. A body without data rows (empty, or only TOTALES) is left as it was. |
| `TableSort.OrdenarFilas` | js/script.js:648-689 | The sorted data rows are the same rows, as a multiset, whatever the column type. |
| `TableSort.OrdenarFilasCorrecta` | js/script.js:648-689 | For number, date and text columns, the sorted data rows are a permutation of the input. They are ordered by that column's key, and rows with equal keys keep their relative order. |
| `TableSort.ClicReordena` | js/script.js:631-700 | A header that was not ascending turns ascending, and one that was turns descending. The body becomes the sorted data rows followed by the last TOTALES row, if there was one. |
| `TableSort.OrdenarFilasReturns` | js/script.js:634-689 | Re-sorting a column's rows the other way and back restores them. |
| `TableSort.SepararCuerpo` | js/script.js:617-628 | A body of data rows followed by the kept TOTALES row separates back into the same data rows and the same TOTALES row. |
| `TableSort.ClicSeparaIgual` | js/script.js:617-700 | After a click, the body separates into the sorted data rows and the same TOTALES row as before. |
| `TableSort.DosClics` | js/script.js:631-645 | A second click on the same header sorts the first click's data rows the other way, and it keeps the TOTALES row. |
| `TableSort.TresClics` | js/script.js:607-701 | Three clicks on one header leave the table as one click does: rows and headers alternate between the two arrangements. |
| `TableSort.TablaOrdenable.SepararFilas` | js/script.js:617-628 | The loop keeps the data rows in order and sets aside the last TOTALES row. |
| `TableSort.TablaOrdenable.OrdenarTabla` | js/script.js:607-701 | The table after the handler is exactly `Clic` of the table before it. This covers both early returns, the header update, the stable sort and the TOTALES row appended last. |

## Left out

- Rendering, DOM access, modals, SweetAlert dialogs, the clock display (`setInterval`) and the cursor handlers of the numeric fields are not modelled. The dialog's answer is the `confirmado` parameter.
- The compounding `Math.pow(1 + tasa/100, 1/360)` and the exponent by days are not modelled. The gross yield `rentabilidad` is an input of `NuevaInversion` and `CalcularInversion`.
- Records.ParseAmount, Records.NuevoCalculo4x1000, Records.NuevaInversion and Filters.LeerCriterios: binary floating point is not modelled. Amounts are exact unbounded `nat`/`real` values. Below 2^53, float rounding before `Math.round` may move a figure by a peso. Above 2^53, `parseFloat` (js/script.js:181, 221, 792) already loses more than a peso: a typed 100.000.000.000.000.007 is read as 100000000000000000. Beyond about 1.8e308 digits read as `Infinity`, which passes the modal's guard (js/script.js:794) and is saved as JSON `null`. The exact results, `Records.Calculo4x1000Exact` among them, hold at every size, where the source's do not.
- The `Date` library, `toLocaleDateString` and `parsearFecha` are parameters (`sumarDias`, `parsearFecha`).
- `localStorage` and `JSON.stringify`/`JSON.parse` are a ghost map from key to parsed list.
- `Date.now()` is abstracted: identifiers are a parameter. Duplicate ids can occur in the model as in the source, and `Store.SinId` removes every record with the id, as the source's `filter` does.
- `calcularInversion` with an amount field without digits (a NaN amount) is not modelled: the amount is a `nat`.
- Store.Calculadora.constructor: `cargarDatos` (js/script.js:583-586) calls `JSON.parse` on the stored text, which throws on malformed text. The throw happens inside the `DOMContentLoaded` listener (js/script.js:1051-1053), so the constructor throws, `app` is never set and the app never starts. The constructor takes already-parsed values, so that error path is not modelled. Malformed data does not load as empty in the source.
- Store.Calculadora.CalcularInversion: the rate and day fields are parsed with `parseFloat`/`parseInt` (js/script.js:182-183) and reach the model as numbers. An empty or unreadable field, which stores NaN (JSON null) amounts in the source, cannot be represented.
- Filters.LeerCriterios and Store.Calculadora.GuardarCalculoFecha: the day fields arrive as the result of `parseInt` (`None` for NaN). The text parsing itself is not modelled.
- `formatearNumero` with `decimales = true` (`toLocaleString`), a string argument, and numbers whose `toString` uses exponent notation are not modelled.
- `formatearConSeparadores` is modelled on string arguments. The numeric argument path goes through `toString`, like `NatToString`.
- `calcularFecha` and `calcularFechaModal` only print a date and store nothing, so they are not modelled.
- `guardarCalculoFechaModal` (js/script.js:854-895) has exactly the guard and the store effect of `guardarCalculoFecha`, so `Store.Calculadora.GuardarCalculoFecha` models both.
- `cargarTablas`, `cargarTabla*` and `limpiarFiltros` only redraw tables or reset fields.
- Filters.Cumple: the rate filter compares `tasaEA.toString()` with the selected option's value, which is `String(tasa)` (js/script.js:339, 354, 363). A number's text is determined by its value, so the model's numeric equality agrees with it for every representable rate. Only a rate stored as NaN (JSON null after a reload) differs: `null.toString()` throws once a rate is selected, and the model has no NaN rates.
- TableSort.ClaveTexto: `toLowerCase` is modelled for ASCII letters only; other letters are compared unchanged.
- TableSort.Celda: the source comparator returns 0 (equal) when either row lacks the clicked cell. The model reads a missing cell as the empty text, which sorts consistently.
- NumberFormat.NumberCellKey: only integer cells are read. The `/,/g` → '.' replacement and fractional parts after `parseFloat` are not modelled. The source strips every '.', so a cell like "12.5%" reads as 125, and the model does the same.
