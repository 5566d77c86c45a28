/** Sorting a table by clicking a column header: the data rows are reordered
    by the clicked column (as numbers, dates or lower-cased text), ascending
    on the first click and descending when the header was already ascending;
    the TOTALES row stays last. Array.prototype.sort is stable, so rows with
    equal keys keep their relative order. */
module TableSort {
  import opened Collections
  import opened Ordering
  import opened NumberFormat

  // ---------------------------------------------------------------------
  // Stable sort by a key

  /** The comparator's verdict "a strictly before b": the key order, or its
      reverse when sorting descending. */
  predicate Precede<K>(less: (K, K) -> bool, asc: bool, a: K, b: K)
  {
    if asc then less(a, b) else less(b, a)
  }

  /** No element is strictly before an earlier one. */
  ghost predicate Ordenada<T, K>(s: seq<T>, key: T -> K, less: (K, K) -> bool, asc: bool)
  {
    forall i, j :: 0 <= i < j < |s| ==> !Precede(less, asc, key(s[j]), key(s[i]))
  }

  /** The elements whose key is `k`, in their order. */
  function ConClave<T(!new), K(==)>(s: seq<T>, key: T -> K, k: K): seq<T>
  {
    Filter(s, TieneClave(key, k))
  }

  function TieneClave<T, K(==)>(key: T -> K, k: K): T -> bool
  {
    (x: T) => key(x) == k
  }

  /** Inserts `x` after every element it does not strictly precede. */
  function Insertar<T, K>(x: T, s: seq<T>, key: T -> K, less: (K, K) -> bool, asc: bool): (r: seq<T>)
    ensures |r| == |s| + 1
    ensures multiset(r) == multiset(s) + multiset{x}
  {
    if s == [] then [x]
    else if Precede(less, asc, key(x), key(s[0])) then [x] + s
    else
      assert s == [s[0]] + s[1..];
      [s[0]] + Insertar(x, s[1..], key, less, asc)
  }

  /** Insertion sort taking the elements front to back: Array.prototype.sort
      with the column comparator. */
  function StableSort<T, K>(s: seq<T>, key: T -> K, less: (K, K) -> bool, asc: bool): (r: seq<T>)
    ensures |r| == |s|
    ensures multiset(r) == multiset(s)
  {
    if s == [] then []
    else
      assert s == s[..|s| - 1] + [s[|s| - 1]];
      Insertar(s[|s| - 1], StableSort(s[..|s| - 1], key, less, asc), key, less, asc)
  }

  lemma PrecedeIrreflexive<K(!new)>(less: (K, K) -> bool, asc: bool, a: K)
    requires StrictTotalOrder(less)
    ensures !Precede(less, asc, a, a)
  {
  }

  lemma PrecedeTransitive<K(!new)>(less: (K, K) -> bool, asc: bool, a: K, b: K, c: K)
    requires StrictTotalOrder(less)
    requires Precede(less, asc, a, b) && Precede(less, asc, b, c)
    ensures Precede(less, asc, a, c)
  {
  }

  lemma PrecedeTotal<K(!new)>(less: (K, K) -> bool, asc: bool, a: K, b: K)
    requires StrictTotalOrder(less)
    requires !Precede(less, asc, a, b) && !Precede(less, asc, b, a)
    ensures a == b
  {
  }

  /** In an ordered list, no element is strictly before the first. */
  lemma NotBeforeFirst<T, K(!new)>(s: seq<T>, key: T -> K, less: (K, K) -> bool, asc: bool, y: T)
    requires StrictTotalOrder(less)
    requires Ordenada(s, key, less, asc)
    requires y in s
    ensures !Precede(less, asc, key(y), key(s[0]))
  {
    var i :| 0 <= i < |s| && s[i] == y;
    if i == 0 {
      PrecedeIrreflexive(less, asc, key(y));
    }
  }

  lemma {:induction false} InsertarOrdenada<T, K(!new)>(x: T, s: seq<T>, key: T -> K, less: (K, K) -> bool, asc: bool)
    requires StrictTotalOrder(less)
    requires Ordenada(s, key, less, asc)
    ensures Ordenada(Insertar(x, s, key, less, asc), key, less, asc)
  {
    var r := Insertar(x, s, key, less, asc);
    if s == [] {
    } else if Precede(less, asc, key(x), key(s[0])) {
      forall j | 0 < j < |r| ensures !Precede(less, asc, key(r[j]), key(x)) {
        assert r[j] == s[j - 1];
        NotBeforeFirst(s, key, less, asc, s[j - 1]);
        if Precede(less, asc, key(r[j]), key(x)) {
          PrecedeTransitive(less, asc, key(r[j]), key(x), key(s[0]));
        }
      }
    } else {
      var t := Insertar(x, s[1..], key, less, asc);
      InsertarOrdenada(x, s[1..], key, less, asc);
      assert r == [s[0]] + t;
      forall j | 0 <= j < |t| ensures !Precede(less, asc, key(t[j]), key(s[0])) {
        assert t[j] in multiset(t);
        if t[j] != x {
          assert t[j] in s[1..];
          var k :| 0 <= k < |s[1..]| && s[1..][k] == t[j];
          assert s[k + 1] == t[j];
        }
      }
    }
  }

  /** The sorted list is ordered by the comparator. */
  lemma {:induction false} StableSortOrdenada<T, K(!new)>(s: seq<T>, key: T -> K, less: (K, K) -> bool, asc: bool)
    requires StrictTotalOrder(less)
    ensures Ordenada(StableSort(s, key, less, asc), key, less, asc)
  {
    if s != [] {
      StableSortOrdenada(s[..|s| - 1], key, less, asc);
      InsertarOrdenada(s[|s| - 1], StableSort(s[..|s| - 1], key, less, asc), key, less, asc);
    }
  }

  /** The key class of a sequence with a known first element. */
  lemma ConClaveCons<T(!new), K(!new)>(x: T, s: seq<T>, key: T -> K, k: K)
    ensures ConClave([x] + s, key, k) == (if key(x) == k then [x] else []) + ConClave(s, key, k)
  {
    FilterCons(x, s, TieneClave(key, k));
  }

  /** An element that strictly precedes the first of an ordered list has a
      key no element of the list has. */
  lemma ClaveAusente<T, K(!new)>(x: T, s: seq<T>, key: T -> K, less: (K, K) -> bool, asc: bool)
    requires StrictTotalOrder(less)
    requires Ordenada(s, key, less, asc)
    requires s != [] && Precede(less, asc, key(x), key(s[0]))
    ensures forall y :: y in s ==> key(y) != key(x)
  {
    forall y | y in s ensures key(y) != key(x) {
      NotBeforeFirst(s, key, less, asc, y);
    }
  }

  /** Inserting `x` into an ordered list puts it after every element with
      the same key. */
  lemma {:induction false} InsertarEstable<T(!new), K(!new)>(x: T, s: seq<T>, key: T -> K, less: (K, K) -> bool, asc: bool, k: K)
    requires StrictTotalOrder(less)
    requires Ordenada(s, key, less, asc)
    ensures ConClave(Insertar(x, s, key, less, asc), key, k)
         == ConClave(s, key, k) + (if key(x) == k then [x] else [])
  {
    if s == [] {
      ConClaveCons(x, [], key, k);
      assert [x] + [] == [x];
    } else if Precede(less, asc, key(x), key(s[0])) {
      ConClaveCons(x, s, key, k);
      if key(x) == k {
        ClaveAusente(x, s, key, less, asc);
        FilterDropsAll(s, TieneClave(key, k));
      }
    } else {
      assert Ordenada(s[1..], key, less, asc) by {
        OrdenadaTail(s, key, less, asc);
      }
      InsertarEstable(x, s[1..], key, less, asc, k);
      ConClaveCons(s[0], Insertar(x, s[1..], key, less, asc), key, k);
      ConClaveCons(s[0], s[1..], key, k);
      assert [s[0]] + s[1..] == s;
    }
  }

  lemma OrdenadaTail<T, K>(s: seq<T>, key: T -> K, less: (K, K) -> bool, asc: bool)
    requires Ordenada(s, key, less, asc) && s != []
    ensures Ordenada(s[1..], key, less, asc)
  {
    forall i, j | 0 <= i < j < |s[1..]| ensures !Precede(less, asc, key(s[1..][j]), key(s[1..][i])) {
      assert s[1..][j] == s[j + 1] && s[1..][i] == s[i + 1];
    }
  }

  /** Stability: for every key, the elements with that key come out in the
      order they went in. */
  lemma {:induction false} StableSortEstable<T(!new), K(!new)>(s: seq<T>, key: T -> K, less: (K, K) -> bool, asc: bool, k: K)
    requires StrictTotalOrder(less)
    ensures ConClave(StableSort(s, key, less, asc), key, k) == ConClave(s, key, k)
  {
    if s != [] {
      var init, last := s[..|s| - 1], s[|s| - 1];
      StableSortEstable(init, key, less, asc, k);
      StableSortOrdenada(init, key, less, asc);
      InsertarEstable(last, StableSort(init, key, less, asc), key, less, asc, k);
      assert s == init + [last];
      FilterAppend(init, [last], TieneClave(key, k));
      assert Filter([last], TieneClave(key, k)) == (if key(last) == k then [last] else []);
    }
  }

  /** An element of one key class of `b` is an element of `b`. */
  lemma InClaseIsIn<T(!new), K(!new)>(y: T, b: seq<T>, key: T -> K, k: K)
    requires y in ConClave(b, key, k)
    ensures y in b && key(y) == k
  {
  }

  /** Two ordered lists with the same key classes start with the same
      element. */
  lemma SameHead<T(!new), K(!new)>(a: seq<T>, b: seq<T>, key: T -> K, less: (K, K) -> bool, asc: bool)
    requires StrictTotalOrder(less)
    requires Ordenada(a, key, less, asc) && Ordenada(b, key, less, asc)
    requires forall k :: ConClave(a, key, k) == ConClave(b, key, k)
    requires a != [] && b != []
    ensures a[0] == b[0]
  {
    var ka, kb := key(a[0]), key(b[0]);
    assert a == [a[0]] + a[1..] && b == [b[0]] + b[1..];
    ConClaveCons(a[0], a[1..], key, ka);
    ConClaveCons(b[0], b[1..], key, kb);
    InClaseIsIn(a[0], b, key, ka);
    InClaseIsIn(b[0], a, key, kb);
    NotBeforeFirst(b, key, less, asc, a[0]);
    NotBeforeFirst(a, key, less, asc, b[0]);
    PrecedeTotal(less, asc, ka, kb);
    ConClaveCons(b[0], b[1..], key, ka);
    assert ConClave(a, key, ka)[0] == a[0];
    assert ConClave(b, key, ka)[0] == b[0];
  }

  /** Removing the same first element from two lists with the same key
      classes leaves lists with the same key classes. */
  lemma SameTailClasses<T(!new), K(!new)>(a: seq<T>, b: seq<T>, key: T -> K, k: K)
    requires a != [] && b != [] && a[0] == b[0]
    requires ConClave(a, key, k) == ConClave(b, key, k)
    ensures ConClave(a[1..], key, k) == ConClave(b[1..], key, k)
  {
    assert a == [a[0]] + a[1..] && b == [b[0]] + b[1..];
    ConClaveCons(a[0], a[1..], key, k);
    ConClaveCons(b[0], b[1..], key, k);
    var h := if key(a[0]) == k then [a[0]] else [];
    assert h + ConClave(a[1..], key, k) == h + ConClave(b[1..], key, k);
    assert (h + ConClave(a[1..], key, k))[|h|..] == ConClave(a[1..], key, k);
    assert (h + ConClave(b[1..], key, k))[|h|..] == ConClave(b[1..], key, k);
  }

  /** A nonempty list has a nonempty key class. */
  lemma HeadInClase<T(!new), K(!new)>(a: seq<T>, key: T -> K)
    requires a != []
    ensures a[0] in ConClave(a, key, key(a[0]))
  {
    assert a[0] in a;
  }

  /** An ordered list is determined by its key classes: two ordered lists
      with the same elements of each key, in the same order, are equal. */
  lemma {:induction false} OrdenadaUnique<T(!new), K(!new)>(a: seq<T>, b: seq<T>, key: T -> K, less: (K, K) -> bool, asc: bool)
    requires StrictTotalOrder(less)
    requires Ordenada(a, key, less, asc) && Ordenada(b, key, less, asc)
    requires forall k :: ConClave(a, key, k) == ConClave(b, key, k)
    ensures a == b
  {
    if a != [] {
      HeadInClase(a, key);
      InClaseIsIn(a[0], b, key, key(a[0]));
    }
    if b != [] {
      HeadInClase(b, key);
      InClaseIsIn(b[0], a, key, key(b[0]));
    }
    if a != [] && b != [] {
      SameHead(a, b, key, less, asc);
      forall k ensures ConClave(a[1..], key, k) == ConClave(b[1..], key, k) {
        SameTailClasses(a, b, key, k);
      }
      OrdenadaTail(a, key, less, asc);
      OrdenadaTail(b, key, less, asc);
      OrdenadaUnique(a[1..], b[1..], key, less, asc);
      assert a == [a[0]] + a[1..] && b == [b[0]] + b[1..];
    }
  }

  /** Sorting ascending, then descending, then ascending again gives the
      first ascending order back (and likewise from descending). */
  lemma ResortReturns<T(!new), K(!new)>(s: seq<T>, key: T -> K, less: (K, K) -> bool, asc: bool)
    requires StrictTotalOrder(less)
    ensures var s1 := StableSort(s, key, less, asc);
      StableSort(StableSort(s1, key, less, !asc), key, less, asc) == s1
  {
    var s1 := StableSort(s, key, less, asc);
    var s2 := StableSort(s1, key, less, !asc);
    var s3 := StableSort(s2, key, less, asc);
    StableSortOrdenada(s, key, less, asc);
    StableSortOrdenada(s2, key, less, asc);
    forall k ensures ConClave(s3, key, k) == ConClave(s1, key, k) {
      StableSortEstable(s2, key, less, asc, k);
      StableSortEstable(s1, key, less, !asc, k);
    }
    OrdenadaUnique(s3, s1, key, less, asc);
  }

  // ---------------------------------------------------------------------
  // Rows, headers and keys

  /** A table row: the trimmed text of each of its cells. */
  type Fila = seq<string>

  /** The totals row is recognised by the text of its first cell. */
  predicate EsFilaTotales(f: Fila)
  {
    |f| > 0 && f[0] == "TOTALES"
  }

  predicate EsFilaDatos(f: Fila)
  {
    !EsFilaTotales(f)
  }

  /** The totals row the forEach ends up holding: the last one, if any. */
  function UltimaTotales(filas: seq<Fila>): (t: Option<Fila>)
    ensures t.Some? ==> t.value in filas && EsFilaTotales(t.value)
    ensures t.None? <==> forall f :: f in filas ==> EsFilaDatos(f)
    ensures t.Some? ==> exists i :: 0 <= i < |filas| && filas[i] == t.value
                                 && forall j :: i < j < |filas| ==> EsFilaDatos(filas[j])
  {
    if filas == [] then None
    else
      var last := filas[|filas| - 1];
      assert filas == filas[..|filas| - 1] + [last];
      if EsFilaTotales(last) then Some(last)
      else
        var init := filas[..|filas| - 1];
        var t := UltimaTotales(init);
        assert t.Some? ==> exists i :: 0 <= i < |filas| && filas[i] == t.value
                                    && forall j :: i < j < |filas| ==> EsFilaDatos(filas[j]) by {
          if t.Some? {
            var i :| 0 <= i < |init| && init[i] == t.value
                     && forall j :: i < j < |init| ==> EsFilaDatos(init[j]);
            assert forall j :: i < j < |filas| ==> EsFilaDatos(filas[j]) by {
              forall j | i < j < |filas| ensures EsFilaDatos(filas[j]) {
                if j < |init| {
                  assert init[j] == filas[j];
                }
              }
            }
          }
        }
        t
  }

  /** The sort state of a header: neither class, `sort-asc` or `sort-desc`. */
  datatype Orden = SinOrden | Asc | Desc

  /** Clearing every header and marking the clicked one: ascending unless it
      was ascending. */
  function Encabezados(h: seq<Orden>, col: nat): (r: seq<Orden>)
    requires col < |h|
    ensures |r| == |h|
    ensures forall i :: 0 <= i < |r| ==> (r[i] != SinOrden <==> i == col)
    ensures r[col] == Asc <==> h[col] != Asc
  {
    seq(|h|, i requires 0 <= i < |h| => if i == col then (if h[col] == Asc then Desc else Asc) else SinOrden)
  }

  /** After a click exactly the clicked header is marked, and it alternates
      between ascending and descending on repeated clicks. */
  lemma EncabezadosMarkOne(h: seq<Orden>, col: nat)
    requires col < |h|
    ensures var r := Encabezados(h, col);
      && Encabezados(r, col)[col] != r[col]
      && Encabezados(Encabezados(r, col), col) == r
  {
  }

  /** Lower-casing of ASCII letters. */
  function Minuscula(c: char): char
  {
    if 'A' <= c <= 'Z' then (c as int + 32) as char else c
  }

  function Minusculas(s: string): (r: string)
    ensures |r| == |s|
  {
    seq(|s|, i requires 0 <= i < |s| => Minuscula(s[i]))
  }

  /** The text of a cell; a row without that cell reads as empty. */
  function Celda(f: Fila, col: nat): string
  {
    if col < |f| then f[col] else ""
  }

  predicate IntLess(a: int, b: int)
  {
    a < b
  }

  function ClaveNumero(col: nat): Fila -> int
  {
    (f: Fila) => NumberCellKey(Celda(f, col))
  }

  function ClaveFecha(col: nat, parsearFecha: string -> int): Fila -> int
  {
    (f: Fila) => parsearFecha(Celda(f, col))
  }

  function ClaveTexto(col: nat): Fila -> string
  {
    (f: Fila) => Minusculas(Celda(f, col))
  }

  /** The data rows sorted by the clicked column, according to the header's
      data-type: "number", "date", or anything else as text. */
  function OrdenarFilas(datos: seq<Fila>, col: nat, tipo: string, parsearFecha: string -> int, asc: bool): (o: seq<Fila>)
    ensures |o| == |datos|
    ensures multiset(o) == multiset(datos)
  {
    if tipo == "number" then StableSort(datos, ClaveNumero(col), IntLess, asc)
    else if tipo == "date" then StableSort(datos, ClaveFecha(col, parsearFecha), IntLess, asc)
    else StableSort(datos, ClaveTexto(col), LexLess, asc)
  }

  /** A sorted table: the headers' state and the rows of its body. */
  datatype Tabla = Tabla(encabezados: seq<Orden>, filas: seq<Fila>)

  /** The rows a click puts back after the sorted data rows. */
  function Cola(totales: Option<Fila>): seq<Fila>
  {
    if totales.Some? then [totales.value] else []
  }

  /** What a click on header `col` does to the table. */
  function Clic(t: Tabla, col: nat, tipo: string, parsearFecha: string -> int): (r: Tabla)
    requires col < |t.encabezados|
    ensures |r.encabezados| == |t.encabezados|
    ensures Filter(t.filas, EsFilaDatos) == [] ==> r == t
  {
    var datos := Filter(t.filas, EsFilaDatos);
    var totales := UltimaTotales(t.filas);
    if |t.filas| == 0 || |datos| == 0 then t
    else
      var asc := t.encabezados[col] != Asc;
      Tabla(Encabezados(t.encabezados, col),
            OrdenarFilas(datos, col, tipo, parsearFecha, asc) + Cola(totales))
  }

  /** The sorted data rows are a permutation of the data rows, in the
      comparator's order on the clicked column's key, and rows with equal
      keys keep their relative order. */
  lemma OrdenarFilasCorrecta(datos: seq<Fila>, col: nat, tipo: string, parsearFecha: string -> int, asc: bool)
    ensures var o := OrdenarFilas(datos, col, tipo, parsearFecha, asc);
      && multiset(o) == multiset(datos)
      && (tipo == "number" ==>
            && Ordenada(o, ClaveNumero(col), IntLess, asc)
            && forall k :: ConClave(o, ClaveNumero(col), k) == ConClave(datos, ClaveNumero(col), k))
      && (tipo == "date" ==>
            && Ordenada(o, ClaveFecha(col, parsearFecha), IntLess, asc)
            && forall k :: ConClave(o, ClaveFecha(col, parsearFecha), k) == ConClave(datos, ClaveFecha(col, parsearFecha), k))
      && (tipo != "number" && tipo != "date" ==>
            && Ordenada(o, ClaveTexto(col), LexLess, asc)
            && forall k :: ConClave(o, ClaveTexto(col), k) == ConClave(datos, ClaveTexto(col), k))
  {
    var o := OrdenarFilas(datos, col, tipo, parsearFecha, asc);
    if tipo == "number" {
      StableSortOrdenada(datos, ClaveNumero(col), IntLess, asc);
      forall k ensures ConClave(o, ClaveNumero(col), k) == ConClave(datos, ClaveNumero(col), k) {
        StableSortEstable(datos, ClaveNumero(col), IntLess, asc, k);
      }
    } else if tipo == "date" {
      StableSortOrdenada(datos, ClaveFecha(col, parsearFecha), IntLess, asc);
      forall k ensures ConClave(o, ClaveFecha(col, parsearFecha), k) == ConClave(datos, ClaveFecha(col, parsearFecha), k) {
        StableSortEstable(datos, ClaveFecha(col, parsearFecha), IntLess, asc, k);
      }
    } else {
      LexLessIsStrictTotalOrder();
      StableSortOrdenada(datos, ClaveTexto(col), LexLess, asc);
      forall k ensures ConClave(o, ClaveTexto(col), k) == ConClave(datos, ClaveTexto(col), k) {
        StableSortEstable(datos, ClaveTexto(col), LexLess, asc, k);
      }
    }
  }

  /** What a click does when there are data rows: the clicked header turns
      ascending unless it was ascending; the body becomes the sorted data
      rows followed by the last totals row, if there was one. */
  lemma ClicReordena(t: Tabla, col: nat, tipo: string, parsearFecha: string -> int)
    requires col < |t.encabezados|
    requires Filter(t.filas, EsFilaDatos) != []
    ensures var datos := Filter(t.filas, EsFilaDatos);
      var r := Clic(t, col, tipo, parsearFecha);
      var asc := t.encabezados[col] != Asc;
      && r.encabezados[col] == (if asc then Asc else Desc)
      && |r.filas| == |datos| + (if UltimaTotales(t.filas).Some? then 1 else 0)
      && r.filas[..|datos|] == OrdenarFilas(datos, col, tipo, parsearFecha, asc)
      && multiset(r.filas[..|datos|]) == multiset(datos)
      && (UltimaTotales(t.filas).Some? ==> r.filas[|r.filas| - 1] == UltimaTotales(t.filas).value)
  {
    var datos := Filter(t.filas, EsFilaDatos);
    var asc := t.encabezados[col] != Asc;
    var o := OrdenarFilas(datos, col, tipo, parsearFecha, asc);
    OrdenarFilasCorrecta(datos, col, tipo, parsearFecha, asc);
    var r := Clic(t, col, tipo, parsearFecha);
    assert r.filas[..|datos|] == o;
  }

  /** Every row of a sort of data rows is a data row. */
  lemma SortedRowsAreData(datos: seq<Fila>, col: nat, tipo: string, parsearFecha: string -> int, asc: bool)
    requires forall f :: f in datos ==> EsFilaDatos(f)
    ensures forall f :: f in OrdenarFilas(datos, col, tipo, parsearFecha, asc) ==> EsFilaDatos(f)
  {
    var o := OrdenarFilas(datos, col, tipo, parsearFecha, asc);
    forall f | f in o ensures EsFilaDatos(f) {
      assert f in multiset(o);
    }
  }

  /** Sorting the rows one way, then the other, then the first way again
      gives the first order back. */
  lemma OrdenarFilasReturns(datos: seq<Fila>, col: nat, tipo: string, parsearFecha: string -> int, asc: bool)
    ensures var o1 := OrdenarFilas(datos, col, tipo, parsearFecha, asc);
      OrdenarFilas(OrdenarFilas(o1, col, tipo, parsearFecha, !asc), col, tipo, parsearFecha, asc) == o1
  {
    if tipo == "number" {
      ResortReturns(datos, ClaveNumero(col), IntLess, asc);
    } else if tipo == "date" {
      ResortReturns(datos, ClaveFecha(col, parsearFecha), IntLess, asc);
    } else {
      LexLessIsStrictTotalOrder();
      ResortReturns(datos, ClaveTexto(col), LexLess, asc);
    }
  }

  /** Data rows followed by the kept totals row split back into the same
      data rows and the same totals row. */
  lemma SepararCuerpo(o: seq<Fila>, totales: Option<Fila>)
    requires forall f :: f in o ==> EsFilaDatos(f)
    requires totales.Some? ==> EsFilaTotales(totales.value)
    ensures Filter(o + Cola(totales), EsFilaDatos) == o
    ensures UltimaTotales(o + Cola(totales)) == totales
  {
    FilterAppend(o, Cola(totales), EsFilaDatos);
    FilterKeepsAll(o, EsFilaDatos);
    if totales.Some? {
      FilterCons(totales.value, [], EsFilaDatos);
      assert (o + Cola(totales))[..|o|] == o;
    } else {
      assert o + Cola(totales) == o;
    }
  }

  /** After a click, the table body splits back into the sorted data rows
      and the same totals row. */
  lemma ClicSeparaIgual(t: Tabla, col: nat, tipo: string, parsearFecha: string -> int)
    requires col < |t.encabezados|
    requires Filter(t.filas, EsFilaDatos) != []
    ensures var r := Clic(t, col, tipo, parsearFecha);
      var o := OrdenarFilas(Filter(t.filas, EsFilaDatos), col, tipo, parsearFecha, t.encabezados[col] != Asc);
      && r == Tabla(Encabezados(t.encabezados, col), o + Cola(UltimaTotales(t.filas)))
      && Filter(r.filas, EsFilaDatos) == o
      && UltimaTotales(r.filas) == UltimaTotales(t.filas)
  {
    var datos := Filter(t.filas, EsFilaDatos);
    var asc := t.encabezados[col] != Asc;
    SortedRowsAreData(datos, col, tipo, parsearFecha, asc);
    SepararCuerpo(OrdenarFilas(datos, col, tipo, parsearFecha, asc), UltimaTotales(t.filas));
  }

  /** Two clicks in a row on the same header: the second sorts the first's
      data rows the other way round and keeps the totals row. */
  lemma DosClics(t: Tabla, col: nat, tipo: string, parsearFecha: string -> int)
    requires col < |t.encabezados|
    requires Filter(t.filas, EsFilaDatos) != []
    ensures var t1 := Clic(t, col, tipo, parsearFecha);
      var asc := t.encabezados[col] != Asc;
      var o1 := OrdenarFilas(Filter(t.filas, EsFilaDatos), col, tipo, parsearFecha, asc);
      && col < |t1.encabezados|
      && Filter(t1.filas, EsFilaDatos) == o1
      && o1 != []
      && UltimaTotales(t1.filas) == UltimaTotales(t.filas)
      && (t1.encabezados[col] != Asc) == !asc
  {
    ClicSeparaIgual(t, col, tipo, parsearFecha);
    EncabezadosMarkOne(t.encabezados, col);
  }

  /** Three clicks on the same header leave the table as one click does:
      the rows and headers cycle between the ascending and the descending
      arrangement. */
  lemma TresClics(t: Tabla, col: nat, tipo: string, parsearFecha: string -> int)
    requires col < |t.encabezados|
    ensures var t1 := Clic(t, col, tipo, parsearFecha);
      var t2 := Clic(t1, col, tipo, parsearFecha);
      Clic(t2, col, tipo, parsearFecha) == t1
  {
    var datos := Filter(t.filas, EsFilaDatos);
    if datos != [] {
      var asc := t.encabezados[col] != Asc;
      var o1 := OrdenarFilas(datos, col, tipo, parsearFecha, asc);
      var t1 := Clic(t, col, tipo, parsearFecha);
      DosClics(t, col, tipo, parsearFecha);
      var o2 := OrdenarFilas(o1, col, tipo, parsearFecha, !asc);
      var t2 := Clic(t1, col, tipo, parsearFecha);
      DosClics(t1, col, tipo, parsearFecha);
      ClicSeparaIgual(t, col, tipo, parsearFecha);
      ClicSeparaIgual(t1, col, tipo, parsearFecha);
      ClicSeparaIgual(t2, col, tipo, parsearFecha);
      OrdenarFilasReturns(datos, col, tipo, parsearFecha, asc);
      EncabezadosMarkOne(t.encabezados, col);
    }
  }

  /** One more row seen by the forEach. */
  lemma SepararPaso(todas: seq<Fila>, i: nat)
    requires i < |todas|
    ensures Filter(todas[..i + 1], EsFilaDatos)
         == Filter(todas[..i], EsFilaDatos) + (if EsFilaDatos(todas[i]) then [todas[i]] else [])
    ensures UltimaTotales(todas[..i + 1])
         == if EsFilaTotales(todas[i]) then Some(todas[i]) else UltimaTotales(todas[..i])
  {
    assert todas[..i + 1] == todas[..i] + [todas[i]];
    assert todas[..i + 1][..i] == todas[..i];
    FilterAppend(todas[..i], [todas[i]], EsFilaDatos);
    FilterCons(todas[i], [], EsFilaDatos);
    assert [todas[i]] + [] == [todas[i]];
  }

  /** The table of one page, as the click handler sees it. */
  class TablaOrdenable {
    var encabezados: seq<Orden>
    var filas: seq<Fila>

    constructor (encabezados: seq<Orden>, filas: seq<Fila>)
      ensures this.encabezados == encabezados && this.filas == filas
    {
      this.encabezados := encabezados;
      this.filas := filas;
    }

    /** The forEach over the body rows: data rows kept in order, the last
        TOTALES row set aside. */
    static method SepararFilas(todas: seq<Fila>) returns (datos: seq<Fila>, totales: Option<Fila>)
      ensures datos == Filter(todas, EsFilaDatos)
      ensures totales == UltimaTotales(todas)
    {
      datos := [];
      totales := None;
      var i := 0;
      while i < |todas|
        invariant 0 <= i <= |todas|
        invariant datos == Filter(todas[..i], EsFilaDatos)
        invariant totales == UltimaTotales(todas[..i])
      {
        var fila := todas[i];
        SepararPaso(todas, i);
        if EsFilaTotales(fila) {
          totales := Some(fila);
        } else {
          datos := datos + [fila];
        }
        i := i + 1;
      }
      assert todas[..i] == todas;
    }

    /** ordenarTabla: a click on header `col` whose data-type is `tipo`;
        `parsearFecha` turns a date cell into its timestamp. */
    method OrdenarTabla(col: nat, tipo: string, parsearFecha: string -> int)
      requires col < |encabezados|
      modifies this
      ensures Tabla(encabezados, filas) == Clic(old(Tabla(encabezados, filas)), col, tipo, parsearFecha)
    {
      if |filas| == 0 {
        return;
      }
      var datos, totales := SepararFilas(filas);
      if |datos| == 0 {
        return;
      }
      var asc := encabezados[col] != Asc;
      encabezados := Encabezados(encabezados, col);
      var ordenadas := OrdenarFilas(datos, col, tipo, parsearFecha, asc);
      filas := ordenadas + Cola(totales);
    }
  }
}
