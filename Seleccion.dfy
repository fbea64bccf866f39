/**
  Order-preserving filtering of a sequence and the greedy, capacity-bounded
  selection that the waiting queue of a stop is subjected to when a vehicle
  boards passengers (Parada.seleccionarPasajerosParaSubir and
  Colectivo.subirPasajerosDesdeParada both scan the queue this way); and
  what a partial reading of a sequence, element by element, gathers (used by
  the record loaders and by the console log of the single-lap run).
*/
module Seleccion {

  /** The elements of `s` that satisfy `f`, in their original order. */
  function Filtro<T>(s: seq<T>, f: T -> bool): (r: seq<T>)
    ensures |r| <= |s|
  {
    if s == [] then []
    else if f(s[0]) then [s[0]] + Filtro(s[1..], f)
    else Filtro(s[1..], f)
  }

  /** Everything the filter keeps satisfies the predicate. */
  lemma {:induction false} FiltroCumple<T>(s: seq<T>, f: T -> bool)
    ensures forall i :: 0 <= i < |Filtro(s, f)| ==> f(Filtro(s, f)[i])
  {
    if s != [] {
      FiltroCumple(s[1..], f);
    }
  }

  /** The negation of a predicate. */
  function No<T>(f: T -> bool): T -> bool
  {
    x => !f(x)
  }

  /** Filtering distributes over concatenation. */
  lemma {:induction false} FiltroConcat<T>(a: seq<T>, b: seq<T>, f: T -> bool)
    ensures Filtro(a + b, f) == Filtro(a, f) + Filtro(b, f)
  {
    if a == [] {
      assert a + b == b;
    } else {
      assert (a + b)[0] == a[0];
      assert (a + b)[1..] == a[1..] + b;
      FiltroConcat(a[1..], b, f);
    }
  }

  /** What satisfies `f` and what does not, together, are exactly the input. */
  lemma {:induction false} FiltroParticion<T>(s: seq<T>, f: T -> bool)
    ensures multiset(Filtro(s, f)) + multiset(Filtro(s, No(f))) == multiset(s)
  {
    if s != [] {
      FiltroParticion(s[1..], f);
      assert s == [s[0]] + s[1..];
    }
  }

  /** Nothing that fails `f` survives filtering by `f`. */
  lemma {:induction false} FiltroDeRechazados<T>(s: seq<T>, f: T -> bool)
    ensures Filtro(Filtro(s, No(f)), f) == []
  {
    if s != [] {
      FiltroDeRechazados(s[1..], f);
    }
  }

  /** Filtering a sequence whose every element satisfies `f` changes nothing. */
  lemma {:induction false} FiltroDeAceptados<T>(s: seq<T>, f: T -> bool)
    requires forall i :: 0 <= i < |s| ==> f(s[i])
    ensures Filtro(s, f) == s
  {
    if s != [] {
      FiltroDeAceptados(s[1..], f);
    }
  }

  /**
    The state of an in-place, unbounded scan that removes every element
    satisfying `f` from `cola`: `j` is the cursor (the elements before it
    stay), `tomados` what was removed so far, `original` the sequence before
    the scan.
  */
  ghost predicate Barrido<T>(original: seq<T>, cola: seq<T>, j: int, tomados: seq<T>, f: T -> bool)
  {
    && 0 <= j <= |cola|
    && Filtro(original, f) == tomados + Filtro(cola[j..], f)
    && Filtro(original, No(f)) == cola[..j] + Filtro(cola[j..], No(f))
  }

  lemma BarridoInicio<T>(original: seq<T>, f: T -> bool)
    ensures Barrido(original, original, 0, [], f)
  {
    assert original[0..] == original && original[..0] == [];
  }

  lemma BarridoToma<T>(original: seq<T>, cola: seq<T>, j: int, tomados: seq<T>, f: T -> bool)
    requires Barrido(original, cola, j, tomados, f)
    requires j < |cola| && f(cola[j])
    ensures Barrido(original, cola[..j] + cola[j + 1..], j, tomados + [cola[j]], f)
  {
    var cola' := cola[..j] + cola[j + 1..];
    assert cola[j..][0] == cola[j];
    assert cola[j..][1..] == cola[j + 1..] == cola'[j..];
    assert cola'[..j] == cola[..j];
  }

  lemma BarridoDeja<T>(original: seq<T>, cola: seq<T>, j: int, tomados: seq<T>, f: T -> bool)
    requires Barrido(original, cola, j, tomados, f)
    requires j < |cola| && !f(cola[j])
    ensures Barrido(original, cola, j + 1, tomados, f)
  {
    assert cola[j..][0] == cola[j];
    assert cola[j..][1..] == cola[j + 1..];
    assert cola[..j + 1] == cola[..j] + [cola[j]];
  }

  lemma BarridoFin<T>(original: seq<T>, cola: seq<T>, tomados: seq<T>, f: T -> bool)
    requires Barrido(original, cola, |cola|, tomados, f)
    ensures tomados == Filtro(original, f) && cola == Filtro(original, No(f))
  {
    assert cola[|cola|..] == [];
    assert cola[..|cola|] == cola;
  }

  /**
    The greedy scan of a waiting queue: walk `q` from the front while fewer
    than `espacio` elements have been taken; each element that satisfies `ok`
    is taken out, every other one stays. Returns the taken elements and the
    queue as it is left.
  */
  function Seleccionar<T>(q: seq<T>, ok: T -> bool, espacio: int): (r: (seq<T>, seq<T>))
    ensures |r.0| + |r.1| == |q|
    ensures |r.0| <= if espacio < 0 then 0 else espacio
    decreases |q|
  {
    if q == [] || espacio <= 0 then ([], q)
    else if ok(q[0]) then
      var resto := Seleccionar(q[1..], ok, espacio - 1);
      ([q[0]] + resto.0, resto.1)
    else
      var resto := Seleccionar(q[1..], ok, espacio);
      (resto.0, [q[0]] + resto.1)
  }

  /** Everything the greedy scan takes satisfies `ok`. */
  lemma {:induction false} SeleccionCumple<T>(q: seq<T>, ok: T -> bool, espacio: int)
    ensures forall i :: 0 <= i < |Seleccionar(q, ok, espacio).0| ==> ok(Seleccionar(q, ok, espacio).0[i])
    decreases |q|
  {
    if q != [] && espacio > 0 {
      SeleccionCumple(q[1..], ok, if ok(q[0]) then espacio - 1 else espacio);
    }
  }

  /**
    The state of an in-place scan of a queue with an iterator that removes
    what it takes: `cola` is the queue as it is now, `j` the cursor (the
    elements before it stay), `tomados` what was taken so far, and `total`
    what the whole scan of the original queue yields.
  */
  ghost predicate Recorrido<T>(total: (seq<T>, seq<T>), cola: seq<T>, j: int, tomados: seq<T>,
                               ok: T -> bool, espacio: int)
  {
    && 0 <= j <= |cola|
    && total.0 == tomados + Seleccionar(cola[j..], ok, espacio - |tomados|).0
    && total.1 == cola[..j] + Seleccionar(cola[j..], ok, espacio - |tomados|).1
  }

  lemma RecorridoInicio<T>(cola: seq<T>, ok: T -> bool, espacio: int)
    ensures Recorrido(Seleccionar(cola, ok, espacio), cola, 0, [], ok, espacio)
  {
    var r := Seleccionar(cola, ok, espacio);
    assert cola[0..] == cola && cola[..0] == [];
    assert [] + r.0 == r.0 && [] + r.1 == r.1;
  }

  lemma RecorridoToma<T>(total: (seq<T>, seq<T>), cola: seq<T>, j: int, tomados: seq<T>,
                         ok: T -> bool, espacio: int)
    requires Recorrido(total, cola, j, tomados, ok, espacio)
    requires j < |cola| && |tomados| < espacio && ok(cola[j])
    ensures Recorrido(total, cola[..j] + cola[j + 1..], j, tomados + [cola[j]], ok, espacio)
  {
    var cola' := cola[..j] + cola[j + 1..];
    assert cola[j..][0] == cola[j];
    assert cola[j..][1..] == cola[j + 1..] == cola'[j..];
    assert cola'[..j] == cola[..j];
  }

  lemma RecorridoDeja<T>(total: (seq<T>, seq<T>), cola: seq<T>, j: int, tomados: seq<T>,
                         ok: T -> bool, espacio: int)
    requires Recorrido(total, cola, j, tomados, ok, espacio)
    requires j < |cola| && |tomados| < espacio && !ok(cola[j])
    ensures Recorrido(total, cola, j + 1, tomados, ok, espacio)
  {
    assert cola[j..][0] == cola[j];
    assert cola[j..][1..] == cola[j + 1..];
    assert cola[..j + 1] == cola[..j] + [cola[j]];
  }

  lemma RecorridoFin<T>(total: (seq<T>, seq<T>), cola: seq<T>, j: int, tomados: seq<T>,
                        ok: T -> bool, espacio: int)
    requires Recorrido(total, cola, j, tomados, ok, espacio)
    requires j == |cola| || |tomados| >= espacio
    ensures total == (tomados, cola)
  {
    if j == |cola| {
      assert cola[j..] == [];
    }
    var resto := Seleccionar(cola[j..], ok, espacio - |tomados|);
    assert resto.0 == [] && resto.1 == cola[j..];
    assert tomados + resto.0 == tomados;
    assert cola[..j] + resto.1 == cola;
  }

  /** The number of queue elements the greedy scan looks at before it stops. */
  function Corte<T>(q: seq<T>, ok: T -> bool, espacio: int): (t: nat)
    ensures t <= |q|
    decreases |q|
  {
    if q == [] || espacio <= 0 then 0
    else 1 + Corte(q[1..], ok, if ok(q[0]) then espacio - 1 else espacio)
  }

  lemma PrefijoCola<T>(q: seq<T>, u: nat)
    requires 0 < |q| && u < |q|
    ensures q[..u + 1] == [q[0]] + q[1..][..u]
  {
  }

  /**
    The scan stops at the first point where the number of accepted elements it
    has seen reaches `espacio`, or at the end of the queue.
  */
  lemma {:induction false} CorteEsPrimero<T>(q: seq<T>, ok: T -> bool, espacio: int)
    ensures forall u :: 0 <= u < Corte(q, ok, espacio) ==> |Filtro(q[..u], ok)| < espacio
    ensures Corte(q, ok, espacio) < |q| ==> |Filtro(q[..Corte(q, ok, espacio)], ok)| >= espacio
  {
    if q == [] || espacio <= 0 {
      assert Corte(q, ok, espacio) == 0;
      assert q[..0] == [];
    } else {
      var e' := if ok(q[0]) then espacio - 1 else espacio;
      CorteEsPrimero(q[1..], ok, e');
      var t := Corte(q, ok, espacio);
      assert t == 1 + Corte(q[1..], ok, e');
      forall u | 0 <= u < t
        ensures |Filtro(q[..u], ok)| < espacio
      {
        if u == 0 {
          assert q[..0] == [];
        } else {
          PrefijoCola(q, u - 1);
          assert q[..u] == [q[0]] + q[1..][..u - 1];
        }
      }
      if t < |q| {
        PrefijoCola(q, t - 1);
        assert q[..t] == [q[0]] + q[1..][..t - 1];
      }
    }
  }

  /**
    The greedy scan, stated without recursion: up to the stopping point the
    accepted elements are taken and the rejected ones stay, in their original
    order; everything after the stopping point stays untouched.
  */
  lemma {:induction false} SeleccionHastaCorte<T>(q: seq<T>, ok: T -> bool, espacio: int)
    ensures Seleccionar(q, ok, espacio).0 == Filtro(q[..Corte(q, ok, espacio)], ok)
    ensures Seleccionar(q, ok, espacio).1 ==
      Filtro(q[..Corte(q, ok, espacio)], No(ok)) + q[Corte(q, ok, espacio)..]
  {
    if q == [] || espacio <= 0 {
      assert q[..0] == [];
    } else {
      var e' := if ok(q[0]) then espacio - 1 else espacio;
      SeleccionHastaCorte(q[1..], ok, e');
      var t' := Corte(q[1..], ok, e');
      assert Corte(q, ok, espacio) == t' + 1;
      PrefijoCola(q, t');
      assert q[..t' + 1] == [q[0]] + q[1..][..t'];
      assert q[t' + 1..] == q[1..][t'..];
    }
  }

  /** The taken elements followed by what stays form a permutation of the queue. */
  lemma SeleccionPermutacion<T>(q: seq<T>, ok: T -> bool, espacio: int)
    ensures multiset(Seleccionar(q, ok, espacio).0) + multiset(Seleccionar(q, ok, espacio).1)
         == multiset(q)
  {
    var t := Corte(q, ok, espacio);
    SeleccionHastaCorte(q, ok, espacio);
    FiltroParticion(q[..t], ok);
    assert q == q[..t] + q[t..];
  }

  /**
    Greedy completeness: if the scan took fewer than `espacio` elements, it
    reached the end of the queue, so nothing acceptable stays behind.
  */
  lemma SeleccionCompleta<T>(q: seq<T>, ok: T -> bool, espacio: int)
    requires |Seleccionar(q, ok, espacio).0| < espacio
    ensures forall i :: 0 <= i < |Seleccionar(q, ok, espacio).1| ==> !ok(Seleccionar(q, ok, espacio).1[i])
  {
    var t := Corte(q, ok, espacio);
    SeleccionHastaCorte(q, ok, espacio);
    CorteEsPrimero(q, ok, espacio);
    assert t == |q|;
    assert q[t..] == [];
    assert q[..t] == q;
    var resto := Seleccionar(q, ok, espacio).1;
    assert resto == Filtro(q, No(ok)) + [];
    forall i | 0 <= i < |resto| ensures !ok(resto[i]) {
      assert No(ok)(resto[i]);
    }
  }

  // ---------------------------------------------------------------------------
  // Reading a sequence element by element
  // ---------------------------------------------------------------------------

  datatype Option<T> = None | Some(value: T)

  /** The value an optional reading yields, if any. */
  function Obtenida<U>(o: Option<U>): seq<U>
  {
    match o
    case None => []
    case Some(x) => [x]
  }

  /** What a partial reading `f` yields over `xs`, in order, leaving out the misses. */
  function Presentes<T, U>(xs: seq<T>, f: T -> Option<U>): seq<U>
  {
    if xs == [] then [] else Presentes(xs[..|xs| - 1], f) + Obtenida(f(xs[|xs| - 1]))
  }

  /** The lists `g` gives over `xs`, one after another. */
  function Concatenados<T, U>(xs: seq<T>, g: T -> seq<U>): seq<U>
  {
    if xs == [] then [] else Concatenados(xs[..|xs| - 1], g) + g(xs[|xs| - 1])
  }

  /** Reading one more element. */
  lemma LeidosUltimo<T, U, V>(xs: seq<T>, i: nat, f: T -> Option<U>, g: T -> seq<V>)
    requires i < |xs|
    ensures Presentes(xs[..i + 1], f) == Presentes(xs[..i], f) + Obtenida(f(xs[i]))
    ensures Concatenados(xs[..i + 1], g) == Concatenados(xs[..i], g) + g(xs[i])
  {
    assert xs[..i + 1][..i] == xs[..i];
  }

  /**
    Reading keeps order: what two parts of a sequence yield is what the first
    part yields, then what the second does.
  */
  lemma {:induction false} PresentesConcat<T, U>(a: seq<T>, b: seq<T>, f: T -> Option<U>)
    ensures Presentes(a + b, f) == Presentes(a, f) + Presentes(b, f)
    decreases |b|
  {
    if b == [] {
      assert a + b == a;
      assert Presentes(a, f) + [] == Presentes(a, f);
    } else {
      var n := |b| - 1;
      PresentesConcat(a, b[..n], f);
      assert (a + b)[..|a + b| - 1] == a + b[..n];
      assert (a + b)[|a + b| - 1] == b[n];
      var x, y, z := Presentes(a, f), Presentes(b[..n], f), Obtenida(f(b[n]));
      assert Presentes(b, f) == y + z;
      assert (x + y) + z == x + (y + z);
    }
  }

  /** The warnings of two parts of a sequence are those of the first part, then those of the second. */
  lemma {:induction false} ConcatenadosConcat<T, U>(a: seq<T>, b: seq<T>, g: T -> seq<U>)
    ensures Concatenados(a + b, g) == Concatenados(a, g) + Concatenados(b, g)
    decreases |b|
  {
    if b == [] {
      assert a + b == a;
      assert Concatenados(a, g) + [] == Concatenados(a, g);
    } else {
      var n := |b| - 1;
      ConcatenadosConcat(a, b[..n], g);
      assert (a + b)[..|a + b| - 1] == a + b[..n];
      assert (a + b)[|a + b| - 1] == b[n];
      var x, y, z := Concatenados(a, g), Concatenados(b[..n], g), g(b[n]);
      assert Concatenados(b, g) == y + z;
      assert (x + y) + z == x + (y + z);
    }
  }

  /** A value is among those read exactly when some element yields it. */
  lemma {:induction false} PresentesSon<T, U>(xs: seq<T>, f: T -> Option<U>, u: U)
    ensures u in Presentes(xs, f) <==> exists i :: 0 <= i < |xs| && f(xs[i]) == Some(u)
  {
    if xs != [] {
      var n := |xs| - 1;
      PresentesSon(xs[..n], f, u);
      if u in Presentes(xs, f) {
        if u in Presentes(xs[..n], f) {
          var i :| 0 <= i < n && f(xs[..n][i]) == Some(u);
          assert xs[..n][i] == xs[i];
        } else {
          assert f(xs[n]) == Some(u);
        }
      }
      if exists i :: 0 <= i < |xs| && f(xs[i]) == Some(u) {
        var i :| 0 <= i < |xs| && f(xs[i]) == Some(u);
        if i < n {
          assert xs[..n][i] == xs[i];
        }
      }
    }
  }

  /** Elements that yield nothing contribute nothing. */
  lemma {:induction false} LeidosVacios<T, U, V>(xs: seq<T>, f: T -> Option<U>, g: T -> seq<V>)
    requires forall i :: 0 <= i < |xs| ==> f(xs[i]).None? && g(xs[i]) == []
    ensures Presentes(xs, f) == [] && Concatenados(xs, g) == []
  {
    if xs != [] {
      var n := |xs| - 1;
      assert forall i :: 0 <= i < n ==> xs[..n][i] == xs[i];
      LeidosVacios(xs[..n], f, g);
    }
  }
}
