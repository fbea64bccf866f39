/**
  Bus lines (src/domain/Linea.java): a code, a duplicate-free list of stops,
  and a map from each stop to its zero-based position, rebuilt whenever a
  stop is appended.
*/
module Lineas {
  import opened Paradas

  /** No stop occurs twice. */
  ghost predicate SinRepetidos(s: seq<Parada>)
  {
    forall i, j :: 0 <= i < j < |s| ==> s[i] != s[j]
  }

  /** `m` sends each stop of `s` to its index and has no other keys. */
  ghost predicate IndicesCorrectos(s: seq<Parada>, m: map<Parada, int>)
  {
    && (forall p | p in m :: p in s)
    && (forall i :: 0 <= i < |s| ==> s[i] in m && m[s[i]] == i)
  }

  /**
    The map that actualizarMapaIndices builds from a list: it starts empty and
    puts each stop with its index, front to back, so a later occurrence wins.
  */
  function MapaIndices(s: seq<Parada>): (m: map<Parada, int>)
    ensures forall p | p in m :: p in s
    ensures forall i :: 0 <= i < |s| ==> s[i] in m
  {
    if s == [] then map[] else MapaIndices(s[..|s| - 1])[s[|s| - 1] := |s| - 1]
  }

  /** On a duplicate-free list the rebuilt map is exactly the position map. */
  lemma {:induction false} MapaIndicesCorrecto(s: seq<Parada>)
    requires SinRepetidos(s)
    ensures IndicesCorrectos(s, MapaIndices(s))
  {
    if s != [] {
      var n := |s| - 1;
      MapaIndicesCorrecto(s[..n]);
      forall i | 0 <= i < |s|
        ensures MapaIndices(s)[s[i]] == i
      {
        if i < n {
          assert s[i] == s[..n][i] && s[i] != s[n];
        }
      }
    }
  }

  /** Whether stop `p` has, in the index map `m`, an index greater than `k`. */
  function IndiceFuturo(m: map<Parada, int>, p: Parada, k: int): bool
  {
    p in m && m[p] > k
  }

  /** With a consistent map, the lookup means: `p` occurs in `s` after position `k`. */
  lemma IndiceFuturoEnLista(s: seq<Parada>, m: map<Parada, int>, p: Parada, k: int)
    ensures IndicesCorrectos(s, m) ==>
      (IndiceFuturo(m, p, k) <==> exists i :: 0 <= i < |s| && k < i && s[i] == p)
  {
    if IndicesCorrectos(s, m) && IndiceFuturo(m, p, k) {
      var i :| 0 <= i < |s| && s[i] == p;
      assert m[s[i]] == i;
    }
  }

  /**
    The stop list of a new line after agregarParada(p) for each `p` of `ps`,
    in order: a stop already on the list is not added again.
  */
  function Agregados(ps: seq<Parada>): seq<Parada>
  {
    if ps == [] then []
    else
      var antes := Agregados(ps[..|ps| - 1]);
      if ps[|ps| - 1] in antes then antes else antes + [ps[|ps| - 1]]
  }

  /**
    Adding stops one by one keeps exactly the stops offered, each once, and
    never reorders what is already on the line.
  */
  lemma {:induction false} AgregadosCorrecto(ps: seq<Parada>)
    ensures SinRepetidos(Agregados(ps))
    ensures forall p :: p in Agregados(ps) <==> p in ps
    ensures |Agregados(ps)| <= |ps|
  {
    if ps != [] {
      var n := |ps| - 1;
      AgregadosCorrecto(ps[..n]);
      assert ps == ps[..n] + [ps[n]];
    }
  }

  /** Offering more stops only extends the list at its end. */
  lemma {:induction false} AgregadosExtiende(ps: seq<Parada>, qs: seq<Parada>)
    ensures |Agregados(ps)| <= |Agregados(ps + qs)|
    ensures Agregados(ps + qs)[..|Agregados(ps)|] == Agregados(ps)
    decreases |qs|
  {
    if qs == [] {
      assert ps + qs == ps;
    } else {
      var n := |qs| - 1;
      AgregadosExtiende(ps, qs[..n]);
      assert (ps + qs)[..|ps + qs| - 1] == ps + qs[..n];
    }
  }

  /**
    Appending a new stop to a duplicate-free list keeps it duplicate-free, and
    the map rebuilt from the longer list is its position map and keeps every
    entry of the old position map.
  */
  lemma AgregarIndice(s: seq<Parada>, m: map<Parada, int>, p: Parada)
    requires SinRepetidos(s) && IndicesCorrectos(s, m) && p !in s
    ensures SinRepetidos(s + [p]) && IndicesCorrectos(s + [p], MapaIndices(s + [p]))
    ensures forall q | q in m :: q in MapaIndices(s + [p]) && MapaIndices(s + [p])[q] == m[q]
  {
    var t := s + [p];
    MapaIndicesCorrecto(t);
    forall q | q in m
      ensures MapaIndices(t)[q] == m[q]
    {
      var i :| 0 <= i < |s| && s[i] == q;
      assert t[i] == q;
    }
  }

  class Linea {
    const codigo: string
    var paradas: seq<Parada>
    var mapaIndicesParadas: map<Parada, int>

    /** The invariant every public operation keeps. */
    ghost predicate Valid()
      reads this
    {
      SinRepetidos(paradas) && IndicesCorrectos(paradas, mapaIndicesParadas)
    }

    constructor (codigo: string)
      ensures Valid()
      ensures this.codigo == codigo && paradas == [] && mapaIndicesParadas == map[]
    {
      this.codigo := codigo;
      paradas := [];
      mapaIndicesParadas := map[];
    }

    /** Clears the index map and refills it from the stop list. */
    method ActualizarMapaIndices()
      modifies this`mapaIndicesParadas
      ensures mapaIndicesParadas == MapaIndices(paradas)
    {
      mapaIndicesParadas := map[];
      for i := 0 to |paradas|
        invariant mapaIndicesParadas == MapaIndices(paradas[..i])
      {
        assert paradas[..i + 1][..i] == paradas[..i];
        mapaIndicesParadas := mapaIndicesParadas[paradas[i] := i];
      }
      assert paradas[..|paradas|] == paradas;
    }

    /**
      Whether `parada` is on the line at a position after `posicionActual`;
      a read-only lookup in the index map.
    */
    function ParadaEstaEnPosicionFutura(parada: Parada, posicionActual: int): (r: bool)
      reads this
      ensures Valid() ==>
        (r <==> exists i :: 0 <= i < |paradas| && posicionActual < i && paradas[i] == parada)
    {
      IndiceFuturoEnLista(paradas, mapaIndicesParadas, parada, posicionActual);
      IndiceFuturo(mapaIndicesParadas, parada, posicionActual)
    }

    /**
      Appends `parada` unless it is already on the line; the index map is
      rebuilt after an append.
    */
    method AgregarParada(parada: Parada)
      requires Valid()
      modifies this
      ensures Valid()
      ensures parada in old(paradas) ==>
        paradas == old(paradas) && mapaIndicesParadas == old(mapaIndicesParadas)
      ensures parada !in old(paradas) ==> paradas == old(paradas) + [parada]
      ensures forall q :: q in old(mapaIndicesParadas) ==>
        q in mapaIndicesParadas && mapaIndicesParadas[q] == old(mapaIndicesParadas)[q]
    {
      if parada !in paradas {
        AgregarIndice(paradas, mapaIndicesParadas, parada);
        paradas := paradas + [parada];
        ActualizarMapaIndices();
      }
    }
  }
}
