/**
  The single-lap run of src/util/Simulador.java, an older revision of the
  engine. Every vehicle carries a position on its line, starting at 0. Rounds
  run in lock step: in each round every vehicle, in list order, either serves
  the stop at its position and moves to the next one, or reports that it has
  finished its route. The run stops after the first round in which no vehicle
  moved. The console lines it prints are kept as a log of events.
*/
module VueltaUnica {
  import opened Seleccion
  import opened Paradas
  import opened Lineas
  import opened Colectivos
  import AdministracionColectivos
  import Simulacion

  /** The console lines of the run, in the order they are printed. */
  datatype Evento =
    | InicioParada(numero: int)
    | Llegada(colectivo: Colectivo, parada: Parada)
    | Movimientos(bajaron: seq<Pasajero>, subieron: seq<Pasajero>)
    | Resumen(cuantosBajaron: int, cuantosSubieron: int, aBordo: int)
    | Finalizo(colectivo: Colectivo)
    | Finalizada

  function Min(a: int, b: int): int
  {
    if a < b then a else b
  }

  // ---------------------------------------------------------------------------
  // Serving one stop
  // ---------------------------------------------------------------------------

  /**
    The destinations offered when boarding at position `pos`: the set of the
    stops of the route after that position.
  */
  function Siguientes(paradas: seq<Parada>, pos: int): set<Parada>
    requires 0 <= pos < |paradas|
  {
    set i | pos < i < |paradas| :: paradas[i]
  }

  /** The offered set holds exactly the stops of the rest of the route, paradas.subList(pos + 1, size). */
  lemma SiguientesSon(paradas: seq<Parada>, pos: int, p: Parada)
    requires 0 <= pos < |paradas|
    ensures p in Siguientes(paradas, pos) <==> p in paradas[pos + 1..]
  {
    if p in paradas[pos + 1..] {
      var j :| 0 <= j < |paradas[pos + 1..]| && paradas[pos + 1..][j] == p;
      assert paradas[pos + 1 + j] == p;
    }
    if p in Siguientes(paradas, pos) {
      var i :| pos < i < |paradas| && paradas[i] == p;
      assert paradas[pos + 1..][i - pos - 1] == p;
    }
  }

  /**
    On a consistent line, offering the set of later stops agrees with the
    index-map test of the later revision (Linea.paradaEstaEnPosicionFutura),
    and never offers the stop being served.
  */
  lemma SiguientesComoLinea(linea: Linea, pos: int, p: Parada)
    requires linea.Valid() && 0 <= pos < |linea.paradas|
    ensures p in Siguientes(linea.paradas, pos) <==> linea.ParadaEstaEnPosicionFutura(p, pos)
    ensures linea.paradas[pos] !in Siguientes(linea.paradas, pos)
  {
    SiguientesSon(linea.paradas, pos, p);
    SiguientesSon(linea.paradas, pos, linea.paradas[pos]);
  }

  /** The lines printed while vehicle `c` serves stop `actual` as `paso` says. */
  function EventosDeParada(c: Colectivo, actual: Parada, paso: Paso): seq<Evento>
  {
    [Llegada(c, actual), Movimientos(paso.bajaron, paso.subieron),
     Resumen(|paso.bajaron|, |paso.subieron|, |paso.abordo|)]
  }

  /**
    The effect of vehicle `c` serving the stop at position `pos` of its route
    `paradas`: alight everyone travelling there, then board from the stop's
    queue those travelling to a later stop of the route, up to the capacity.
    `antes` and `despues` are the manifest and the queue before and after;
    `vistas` are the lines printed.
  */
  ghost predicate Atendida(c: Colectivo, paradas: seq<Parada>, pos: int, maxCapacidad: int,
                           antes: (seq<Pasajero>, seq<Pasajero>), despues: (seq<Pasajero>, seq<Pasajero>),
                           vistas: seq<Evento>)
    requires 0 <= pos < |paradas|
  {
    var paso := AtenderParada(antes.0, antes.1, paradas[pos], DestinoEn(Siguientes(paradas, pos)), maxCapacidad);
    despues == (paso.abordo, paso.esperando) && vistas == EventosDeParada(c, paradas[pos], paso)
  }

  // ---------------------------------------------------------------------------
  // Reading the log
  // ---------------------------------------------------------------------------

  /** The stop an event says vehicle `c` arrived at, if it is such an event. */
  function VisitaEn(e: Evento, c: Colectivo): seq<Parada>
  {
    if e.Llegada? && e.colectivo == c then [e.parada] else []
  }

  /** The number of the round an event opens, if it opens one. */
  function NumeroDeRonda(e: Evento): seq<int>
  {
    if e.InicioParada? then [e.numero] else []
  }

  /** The stops vehicle `c` arrived at, in order, according to the log. */
  function Visitas(eventos: seq<Evento>, c: Colectivo): seq<Parada>
  {
    if eventos == [] then [] else Visitas(eventos[..|eventos| - 1], c) + VisitaEn(eventos[|eventos| - 1], c)
  }

  /** The numbers of the rounds opened, in order, according to the log. */
  function Rondas(eventos: seq<Evento>): seq<int>
  {
    if eventos == [] then [] else Rondas(eventos[..|eventos| - 1]) + NumeroDeRonda(eventos[|eventos| - 1])
  }

  /** A single line of the log that is not an arrival records none. */
  lemma VisitaMuda(e: Evento, d: Colectivo)
    requires !e.Llegada?
    ensures Visitas([e], d) == []
  {
    assert [e][..0] == [];
  }

  /** A single line of the log opens round `n`, if it is a round line, and no round otherwise. */
  lemma RondaDe(e: Evento)
    ensures Rondas([e]) == if e.InicioParada? then [e.numero] else []
  {
    assert [e][..0] == [];
  }

  /** Appending lines to the log appends the arrivals they record. */
  lemma {:induction false} VisitasAgregadas(eventos: seq<Evento>, nuevos: seq<Evento>, d: Colectivo)
    ensures Visitas(eventos + nuevos, d) == Visitas(eventos, d) + Visitas(nuevos, d)
    decreases |nuevos|
  {
    if nuevos == [] {
      assert eventos + nuevos == eventos;
    } else {
      var n := |nuevos| - 1;
      VisitasAgregadas(eventos, nuevos[..n], d);
      var a, b, c := Visitas(eventos, d), Visitas(nuevos[..n], d), VisitaEn(nuevos[n], d);
      assert Visitas(eventos + nuevos, d) == (a + b) + c by {
        assert (eventos + nuevos)[..|eventos + nuevos| - 1] == eventos + nuevos[..n];
        assert (eventos + nuevos)[|eventos + nuevos| - 1] == nuevos[n];
      }
      assert Visitas(nuevos, d) == b + c;
      assert (a + b) + c == a + (b + c);
    }
  }

  /** Appending lines to the log appends the rounds they open. */
  lemma {:induction false} RondasAgregadas(eventos: seq<Evento>, nuevos: seq<Evento>)
    ensures Rondas(eventos + nuevos) == Rondas(eventos) + Rondas(nuevos)
    decreases |nuevos|
  {
    if nuevos == [] {
      assert eventos + nuevos == eventos;
    } else {
      var n := |nuevos| - 1;
      RondasAgregadas(eventos, nuevos[..n]);
      var a, b, c := Rondas(eventos), Rondas(nuevos[..n]), NumeroDeRonda(nuevos[n]);
      assert Rondas(eventos + nuevos) == (a + b) + c by {
        assert (eventos + nuevos)[..|eventos + nuevos| - 1] == eventos + nuevos[..n];
        assert (eventos + nuevos)[|eventos + nuevos| - 1] == nuevos[n];
      }
      assert Rondas(nuevos) == b + c;
      assert (a + b) + c == a + (b + c);
    }
  }

  /** The lines printed for a served stop record one arrival of its vehicle and open no round. */
  lemma EventosDeParadaLeidos(c: Colectivo, actual: Parada, paso: Paso, d: Colectivo)
    ensures Visitas(EventosDeParada(c, actual, paso), d) == if d == c then [actual] else []
    ensures Rondas(EventosDeParada(c, actual, paso)) == []
  {
    var a, b, e := Llegada(c, actual), Movimientos(paso.bajaron, paso.subieron),
                   Resumen(|paso.bajaron|, |paso.subieron|, |paso.abordo|);
    var s := EventosDeParada(c, actual, paso);
    assert s[..2] == [a, b] && [a, b][..1] == [a] && [a][..0] == [];
    assert Visitas(s, d) == Visitas([a, b], d) + VisitaEn(e, d);
    assert Visitas([a, b], d) == Visitas([a], d) + VisitaEn(b, d);
    assert Visitas([a], d) == VisitaEn(a, d);
    assert Rondas(s) == Rondas([a, b]) + NumeroDeRonda(e);
    assert Rondas([a, b]) == Rondas([a]) + NumeroDeRonda(b);
    assert Rondas([a]) == NumeroDeRonda(a);
  }

  /** The log after a served stop: one more arrival of its vehicle, no new round. */
  lemma TrasParada(eventos: seq<Evento>, c: Colectivo, actual: Parada, paso: Paso, d: Colectivo)
    ensures Visitas(eventos + EventosDeParada(c, actual, paso), d) ==
      Visitas(eventos, d) + if d == c then [actual] else []
    ensures Rondas(eventos + EventosDeParada(c, actual, paso)) == Rondas(eventos)
  {
    VisitasAgregadas(eventos, EventosDeParada(c, actual, paso), d);
    RondasAgregadas(eventos, EventosDeParada(c, actual, paso));
    EventosDeParadaLeidos(c, actual, paso, d);
  }

  /** The log after one more line: a new round only for a round line. */
  lemma RondasTrasLinea(eventos: seq<Evento>, e: Evento)
    ensures Rondas(eventos + [e]) == Rondas(eventos) + if e.InicioParada? then [e.numero] else []
  {
    RondasAgregadas(eventos, [e]);
    RondaDe(e);
  }

  /** The log after one line that is not an arrival: no new arrival. */
  lemma VisitasTrasLinea(eventos: seq<Evento>, e: Evento, d: Colectivo)
    requires !e.Llegada?
    ensures Visitas(eventos + [e], d) == Visitas(eventos, d)
  {
    VisitasAgregadas(eventos, [e], d);
    VisitaMuda(e, d);
  }

  /** No line of `s` opens a round. */
  ghost predicate SinAperturas(s: seq<Evento>)
  {
    forall k | 0 <= k < |s| :: !s[k].InicioParada?
  }

  /** Lines that open no round leave the rounds of the log as they were. */
  lemma {:induction false} RondasSinAperturas(eventos: seq<Evento>, s: seq<Evento>)
    requires SinAperturas(s)
    ensures Rondas(eventos + s) == Rondas(eventos)
    decreases |s|
  {
    if s != [] {
      var n := |s| - 1;
      assert SinAperturas(s[..n]);
      RondasSinAperturas(eventos, s[..n]);
      assert eventos + s == (eventos + s[..n]) + [s[n]];
      RondasTrasLinea(eventos + s[..n], s[n]);
    } else {
      assert eventos + s == eventos;
    }
  }

  /** Two stretches of the log without round lines make one. */
  lemma SinAperturasSigue(e0: seq<Evento>, e1: seq<Evento>, e2: seq<Evento>)
    requires e0 <= e1 <= e2 && SinAperturas(e1[|e0|..]) && SinAperturas(e2[|e1|..])
    ensures e0 <= e2 && SinAperturas(e2[|e0|..])
  {
    forall k | |e0| <= k < |e2|
      ensures !e2[k].InicioParada?
    {
      if k < |e1| {
        assert e2[k] == e1[k] == e1[|e0|..][k - |e0|];
      } else {
        assert e2[k] == e2[|e1|..][k - |e1|];
      }
    }
  }

  /** The numbers 1, 2, ..., n. */
  function Numeracion(n: nat): (r: seq<int>)
    ensures |r| == n && forall k | 0 <= k < n :: r[k] == k + 1
  {
    if n == 0 then [] else Numeracion(n - 1) + [n]
  }

  /** `despues` is `antes` followed by the round numbers 1, 2, ..., r. */
  ghost predicate Numeradas(antes: seq<int>, despues: seq<int>, r: nat)
  {
    despues == antes + Numeracion(r)
  }

  /** After `r` numbered rounds, a round that appends number `r + 1` makes `r + 1`. */
  lemma NumeracionSigue(antes: seq<int>, medio: seq<int>, despues: seq<int>, r: nat, n: int)
    requires Numeradas(antes, medio, r) && n == r + 1 && despues == medio + [n]
    ensures Numeradas(antes, despues, r + 1)
  {
    assert Numeracion(r + 1) == Numeracion(r) + [r + 1];
  }

  /** Closing the log adds no round: the rounds opened are still numbered 1, ..., r. */
  lemma RondasAlCerrar(antes: seq<int>, eventos: seq<Evento>, r: nat)
    requires Numeradas(antes, Rondas(eventos), r)
    ensures |antes| <= |Rondas(eventos + [Finalizada])|
    ensures |Rondas(eventos + [Finalizada])| - |antes| == r
    ensures Rondas(eventos + [Finalizada]) == antes + Numeracion(r)
  {
    RondasTrasLinea(eventos, Finalizada);
  }

  // ---------------------------------------------------------------------------
  // Progress of the fleet
  //
  // `largo` maps each vehicle to the number of stops of its route; the run
  // never changes the routes, so these facts are stated on plain values.
  // ---------------------------------------------------------------------------

  /** Every listed vehicle has a position within its route, the end included. */
  ghost predicate EnRuta(cs: seq<Colectivo>, largo: map<Colectivo, int>, p: map<Colectivo, int>)
  {
    forall c | c in cs :: c in largo && c in p && 0 <= p[c] <= largo[c]
  }

  /** Some listed vehicle is short of the end of its route. */
  ghost predicate AlgunoEnCurso(cs: seq<Colectivo>, largo: map<Colectivo, int>, p: map<Colectivo, int>)
    requires EnRuta(cs, largo, p)
  {
    exists c | c in cs :: p[c] < largo[c]
  }

  /** How many of the first `n` list entries hold vehicle `c`. */
  function Veces(cs: seq<Colectivo>, n: int, c: Colectivo): (r: nat)
    requires 0 <= n <= |cs|
    ensures r <= n
  {
    if n == 0 then 0 else Veces(cs, n - 1, c) + if cs[n - 1] == c then 1 else 0
  }

  /** A vehicle is counted among the first `n` entries exactly when one of them holds it. */
  lemma {:induction false} VecesEs(cs: seq<Colectivo>, n: int, c: Colectivo)
    requires 0 <= n <= |cs|
    ensures Veces(cs, n, c) > 0 <==> exists j :: 0 <= j < n && cs[j] == c
  {
    if n > 0 {
      VecesEs(cs, n - 1, c);
    }
  }

  /**
    From positions `p0` to `p`, every listed vehicle moved once per entry
    among the first `n` of the list that holds it, or up to the end of its
    route if that comes first.
  */
  ghost predicate AvanzadosPor(cs: seq<Colectivo>, largo: map<Colectivo, int>, p0: map<Colectivo, int>,
                               p: map<Colectivo, int>, n: int)
    requires 0 <= n <= |cs|
  {
    forall c | c in cs :: c in largo && c in p0 && c in p && p[c] == Min(p0[c] + Veces(cs, n, c), largo[c])
  }

  /** From positions `p0` to `p`, every listed vehicle moved `r` stops, or up to the end of its route. */
  ghost predicate AvanzadosTodos(cs: seq<Colectivo>, largo: map<Colectivo, int>, p0: map<Colectivo, int>,
                                 p: map<Colectivo, int>, r: int)
  {
    forall c | c in cs :: c in largo && c in p0 && c in p && p[c] == Min(p0[c] + r, largo[c])
  }

  /** The stops still ahead of the listed vehicles, counted once per list entry. */
  function Pendientes(cs: seq<Colectivo>, largo: map<Colectivo, int>, p: map<Colectivo, int>): nat
    requires EnRuta(cs, largo, p)
  {
    if cs == [] then 0
    else
      assert EnRuta(cs[..|cs| - 1], largo, p);
      Pendientes(cs[..|cs| - 1], largo, p) + largo[cs[|cs| - 1]] - p[cs[|cs| - 1]]
  }

  /**
    Moving vehicles forward, never past the end of their routes, never
    increases the stops still ahead, and moving one listed vehicle strictly
    decreases them.
  */
  lemma {:induction false} PendientesBaja(cs: seq<Colectivo>, largo: map<Colectivo, int>,
                                          p: map<Colectivo, int>, q: map<Colectivo, int>)
    requires EnRuta(cs, largo, p) && EnRuta(cs, largo, q)
    requires forall c | c in cs :: p[c] <= q[c]
    ensures Pendientes(cs, largo, q) <= Pendientes(cs, largo, p)
    ensures (exists c | c in cs :: p[c] < q[c]) ==> Pendientes(cs, largo, q) < Pendientes(cs, largo, p)
  {
    if cs != [] {
      var n := |cs| - 1;
      assert forall c | c in cs[..n] :: c in cs;
      PendientesBaja(cs[..n], largo, p, q);
      if exists c | c in cs :: p[c] < q[c] {
        var c :| c in cs && p[c] < q[c];
        if c != cs[n] {
          assert c in cs[..n] by {
            var k :| 0 <= k < |cs| && cs[k] == c;
            assert cs[..n][k] == c;
          }
        }
      }
    }
  }

  /**
    A whole round, in which every list entry moves its vehicle once, up to the
    end of its route: the stops still ahead never grow, and they shrink when
    some vehicle was not yet at the end of its route.
  */
  lemma PendientesTrasRonda(cs: seq<Colectivo>, largo: map<Colectivo, int>, p: map<Colectivo, int>,
                            q: map<Colectivo, int>)
    requires EnRuta(cs, largo, p) && AvanzadosPor(cs, largo, p, q, |cs|)
    ensures EnRuta(cs, largo, q)
    ensures Pendientes(cs, largo, q) <= Pendientes(cs, largo, p)
    ensures AlgunoEnCurso(cs, largo, p) ==> Pendientes(cs, largo, q) < Pendientes(cs, largo, p)
  {
    forall c | c in cs
      ensures p[c] <= q[c] && (p[c] < largo[c] ==> p[c] < q[c])
    {
      var k :| 0 <= k < |cs| && cs[k] == c;
      VecesEs(cs, |cs|, c);
    }
    PendientesBaja(cs, largo, p, q);
  }

  /** The most stops any listed vehicle still has ahead; 0 for an empty list. */
  function MasLargo(cs: seq<Colectivo>, largo: map<Colectivo, int>, p: map<Colectivo, int>): (r: int)
    requires forall c | c in cs :: c in largo && c in p
    ensures r >= 0
  {
    if cs == [] then 0
    else
      var resto := MasLargo(cs[..|cs| - 1], largo, p);
      var ultimo := largo[cs[|cs| - 1]] - p[cs[|cs| - 1]];
      if ultimo > resto then ultimo else resto
  }

  /**
    Some listed vehicle has more than `r` stops ahead exactly when the
    longest remaining route is longer than `r`.
  */
  lemma {:induction false} MasLargoEs(cs: seq<Colectivo>, largo: map<Colectivo, int>, p: map<Colectivo, int>,
                                      r: int)
    requires r >= 0 && forall c | c in cs :: c in largo && c in p
    ensures (exists c | c in cs :: r < largo[c] - p[c]) <==> r < MasLargo(cs, largo, p)
  {
    if cs != [] {
      var n := |cs| - 1;
      MasLargoEs(cs[..n], largo, p, r);
      assert cs == cs[..n] + [cs[n]];
      if exists c | c in cs :: r < largo[c] - p[c] {
        var c :| c in cs && r < largo[c] - p[c];
        if c != cs[n] {
          assert c in cs[..n];
        }
      }
    }
  }

  /** In a list without repetitions, every listed vehicle occurs once among the first `n` entries that hold it. */
  lemma {:induction false} UnaVez(cs: seq<Colectivo>, n: int, c: Colectivo, k: int)
    requires AdministracionColectivos.Distintos(cs) && 0 <= k < n <= |cs| && cs[k] == c
    ensures Veces(cs, n, c) == 1
  {
    if k < n - 1 {
      UnaVez(cs, n - 1, c, k);
    } else {
      VecesEs(cs, n - 1, c);
    }
  }

  /** Some of the first `n` list entries had not reached the end of its route. */
  ghost predicate HayPendiente(cs: seq<Colectivo>, largo: map<Colectivo, int>, p: map<Colectivo, int>, n: int)
    requires 0 <= n <= |cs|
  {
    && n > 0
    && (|| HayPendiente(cs, largo, p, n - 1)
        || (cs[n - 1] in p && cs[n - 1] in largo && p[cs[n - 1]] < largo[cs[n - 1]]))
  }

  /** HayPendiente holds exactly when one of the first `n` entries is short of the end of its route. */
  lemma {:induction false} HayPendienteEs(cs: seq<Colectivo>, largo: map<Colectivo, int>, p: map<Colectivo, int>,
                                          n: int)
    requires 0 <= n <= |cs| && forall c | c in cs :: c in largo && c in p
    ensures HayPendiente(cs, largo, p, n) <==> exists j :: 0 <= j < n && p[cs[j]] < largo[cs[j]]
  {
    if n > 0 {
      HayPendienteEs(cs, largo, p, n - 1);
    }
  }

  /** Over the whole list, HayPendiente says that some listed vehicle is short of the end of its route. */
  lemma HayPendienteEnLista(cs: seq<Colectivo>, largo: map<Colectivo, int>, p: map<Colectivo, int>)
    requires EnRuta(cs, largo, p)
    ensures HayPendiente(cs, largo, p, |cs|) <==> AlgunoEnCurso(cs, largo, p)
  {
    HayPendienteEs(cs, largo, p, |cs|);
    if AlgunoEnCurso(cs, largo, p) {
      var c :| c in cs && p[c] < largo[c];
      var j :| 0 <= j < |cs| && cs[j] == c;
    }
  }

  /**
    One turn inside a round, at list entry `i`: every vehicle of `cs` had
    moved once per earlier entry it holds, up to the end of its route; after
    the turn of `cs[i]` the same holds counting entry `i`. The vehicle moves
    only if it started the round short of the end of its route, and if it
    does not although it started short of it, it was listed earlier in the
    round.
  */
  lemma TurnoEnRonda(cs: seq<Colectivo>, largo: map<Colectivo, int>, i: int, p0: map<Colectivo, int>,
                     p: map<Colectivo, int>, q: map<Colectivo, int>, avanzo: bool)
    requires 0 <= i < |cs|
    requires EnRuta(cs, largo, p0) && AvanzadosPor(cs, largo, p0, p, i)
    requires avanzo <==> p[cs[i]] < largo[cs[i]]
    requires avanzo ==> q == p[cs[i] := p[cs[i]] + 1]
    requires !avanzo ==> q == p
    ensures AvanzadosPor(cs, largo, p0, q, i + 1)
    ensures HayPendiente(cs, largo, p0, i + 1) <==> HayPendiente(cs, largo, p0, i) || avanzo
  {
    if p0[cs[i]] < largo[cs[i]] <= p[cs[i]] {
      VecesEs(cs, i, cs[i]);
      HayPendienteEs(cs, largo, p0, i);
    }
  }

  /**
    A whole round in a list without repetitions: every vehicle moves one more
    stop, up to the end of its route, and the round moved some vehicle exactly
    when the rounds run before it are fewer than the longest route ahead at the
    start of the run.
  */
  lemma RondaSinRepetidos(cs: seq<Colectivo>, largo: map<Colectivo, int>, p0: map<Colectivo, int>, rondas: nat,
                          p: map<Colectivo, int>, q: map<Colectivo, int>)
    requires AdministracionColectivos.Distintos(cs)
    requires EnRuta(cs, largo, p0) && EnRuta(cs, largo, p)
    requires AvanzadosTodos(cs, largo, p0, p, rondas) && AvanzadosPor(cs, largo, p, q, |cs|)
    ensures AvanzadosTodos(cs, largo, p0, q, rondas + 1)
    ensures AlgunoEnCurso(cs, largo, p) <==> rondas < MasLargo(cs, largo, p0)
  {
    forall c | c in cs
      ensures q[c] == Min(p0[c] + rondas + 1, largo[c])
    {
      var k :| 0 <= k < |cs| && cs[k] == c;
      UnaVez(cs, |cs|, c, k);
    }
    MasLargoEs(cs, largo, p0, rondas);
  }

  /** A round that moved nobody leaves every vehicle at the end of its route. */
  lemma RondaQuieta(cs: seq<Colectivo>, largo: map<Colectivo, int>, p: map<Colectivo, int>, q: map<Colectivo, int>)
    requires EnRuta(cs, largo, p) && AvanzadosPor(cs, largo, p, q, |cs|) && !AlgunoEnCurso(cs, largo, p)
    ensures forall c | c in cs :: q[c] == largo[c]
  {
  }

  /**
    The count of rounds in a list without repetitions: after `rondas` rounds
    from positions `p0` every vehicle stands `rondas` stops further on, up to
    the end of its route, and the run goes on exactly while the rounds run
    do not exceed the longest route ahead at the start.
  */
  ghost predicate Progreso(cs: seq<Colectivo>, largo: map<Colectivo, int>, p0: map<Colectivo, int>,
                           p: map<Colectivo, int>, rondas: nat, enCurso: bool)
  {
    && EnRuta(cs, largo, p0)
    && (AdministracionColectivos.Distintos(cs) ==>
          && AvanzadosTodos(cs, largo, p0, p, rondas)
          && (enCurso <==> rondas <= MasLargo(cs, largo, p0))
          && rondas <= MasLargo(cs, largo, p0) + 1)
  }

  /** A whole round keeps the count: one more round, and the run goes on while some vehicle moved. */
  lemma ProgresoSigue(cs: seq<Colectivo>, largo: map<Colectivo, int>, p0: map<Colectivo, int>, rondas: nat,
                      p: map<Colectivo, int>, q: map<Colectivo, int>)
    requires Progreso(cs, largo, p0, p, rondas, true) && EnRuta(cs, largo, p)
    requires AvanzadosPor(cs, largo, p, q, |cs|)
    ensures Progreso(cs, largo, p0, q, rondas + 1, AlgunoEnCurso(cs, largo, p))
  {
    if AdministracionColectivos.Distintos(cs) {
      RondaSinRepetidos(cs, largo, p0, rondas, p, q);
    }
  }

  /** When the run stops in a list without repetitions, it has run one round past the longest route. */
  lemma ProgresoFinal(cs: seq<Colectivo>, largo: map<Colectivo, int>, p0: map<Colectivo, int>,
                      p: map<Colectivo, int>, rondas: nat)
    requires Progreso(cs, largo, p0, p, rondas, false)
    ensures AdministracionColectivos.Distintos(cs) ==> rondas == MasLargo(cs, largo, p0) + 1
  {
  }

  class Simulador {
    const maxCapacidad: int
    const colectivos: seq<Colectivo>
    var posiciones: map<Colectivo, int>
    /** The console lines printed so far. */
    var eventos: seq<Evento>
    /** The number of stops of each listed vehicle's route; the run never changes the routes. */
    ghost const largos: map<Colectivo, int>
    /** Every stop of every route: the stops whose queues the run may change. */
    ghost const recorridos: set<Parada>

    /** The lines the vehicles run. */
    ghost function Lineas(): set<Linea>
    {
      set c | c in colectivos :: c.linea
    }

    /** The listed vehicles. */
    ghost function Vehiculos(): set<Colectivo>
    {
      set c | c in colectivos
    }

    /** The stop `c` serves next, if it is within its route. */
    ghost function ParadaActual(c: Colectivo): set<Parada>
      reads this, c.linea
    {
      if c in posiciones && 0 <= posiciones[c] < |c.linea.paradas| then {c.linea.paradas[posiciones[c]]} else {}
    }

    /**
      Positions `p` and log `e` agree with the routes: every listed vehicle
      has a position within its route, and the log shows it arriving at
      exactly the stops before that position, in route order.
    */
    ghost predicate Coherente(p: map<Colectivo, int>, e: seq<Evento>)
      reads Lineas()
    {
      forall c | c in colectivos ::
        && c in largos && largos[c] == |c.linea.paradas|
        && (forall i | 0 <= i < |c.linea.paradas| :: c.linea.paradas[i] in recorridos)
        && c in p && 0 <= p[c] <= |c.linea.paradas|
        && Visitas(e, c) == c.linea.paradas[..p[c]]
    }

    /** The current positions and log agree with the routes. */
    ghost predicate Valid()
      reads this, Lineas()
    {
      Coherente(posiciones, eventos)
    }

    /** Serving the stop at a vehicle's position and moving it on keeps positions and log in agreement. */
    lemma CoherenteTrasParada(p: map<Colectivo, int>, e: seq<Evento>, c: Colectivo, paso: Paso)
      requires Coherente(p, e) && c in colectivos && p[c] < |c.linea.paradas|
      ensures Coherente(p[c := p[c] + 1], e + EventosDeParada(c, c.linea.paradas[p[c]], paso))
      ensures (e + EventosDeParada(c, c.linea.paradas[p[c]], paso))[|e|..] == EventosDeParada(c, c.linea.paradas[p[c]], paso)
      ensures SinAperturas(EventosDeParada(c, c.linea.paradas[p[c]], paso))
    {
      var paradas := c.linea.paradas;
      forall d | d in colectivos
        ensures Visitas(e + EventosDeParada(c, paradas[p[c]], paso), d) == d.linea.paradas[..p[c := p[c] + 1][d]]
      {
        TrasParada(e, c, paradas[p[c]], paso, d);
        if d == c {
          assert paradas[..p[c] + 1] == paradas[..p[c]] + [paradas[p[c]]];
        }
      }
      assert (e + EventosDeParada(c, paradas[p[c]], paso))[|e|..] == EventosDeParada(c, paradas[p[c]], paso);
    }

    /** A log line that is not an arrival keeps positions and log in agreement. */
    lemma CoherenteTrasLinea(p: map<Colectivo, int>, e: seq<Evento>, x: Evento)
      requires Coherente(p, e) && !x.Llegada?
      ensures Coherente(p, e + [x])
    {
      forall d | d in colectivos
        ensures Visitas(e + [x], d) == Visitas(e, d)
      {
        VisitasTrasLinea(e, x, d);
      }
    }

    /** The stop a listed vehicle serves next is among the stops the run may change. */
    lemma EnRecorrido(c: Colectivo)
      requires Valid() && c in colectivos
      ensures ParadaActual(c) <= recorridos
    {
    }

    /** In a consistent state every vehicle is within its route. */
    lemma ValidEnRuta()
      requires Valid()
      ensures EnRuta(colectivos, largos, posiciones)
    {
    }

    /** Puts every listed vehicle at position 0. */
    constructor (colectivos: seq<Colectivo>, maxCapacidad: int)
      ensures Valid()
      ensures this.colectivos == colectivos && this.maxCapacidad == maxCapacidad
      ensures posiciones.Keys == set c | c in colectivos
      ensures forall c | c in posiciones :: posiciones[c] == 0
      ensures eventos == []
    {
      var iniciales: map<Colectivo, int> := map[];
      for i := 0 to |colectivos|
        invariant iniciales == Simulacion.Ceros(colectivos[..i])
      {
        assert colectivos[..i + 1] == colectivos[..i] + [colectivos[i]];
        iniciales := iniciales[colectivos[i] := 0];
      }
      assert colectivos[..|colectivos|] == colectivos;
      this.colectivos := colectivos;
      this.maxCapacidad := maxCapacidad;
      largos := map c | c in colectivos :: |c.linea.paradas|;
      recorridos := set c, i | c in colectivos && 0 <= i < |c.linea.paradas| :: c.linea.paradas[i];
      eventos := [];
      posiciones := iniciales;
    }

    /**
      Runs rounds, numbered from 1, until one passes in which no vehicle
      moved. Then every vehicle stands at the end of its route and has arrived
      at each of its stops once, in route order. When no vehicle is listed
      twice, that takes one round per stop of the longest remaining route,
      plus the final round in which nobody moves.
    */
    method Ejecutar()
      requires Valid()
      modifies this`posiciones, this`eventos, Vehiculos()`pasajeros, recorridos`pasajerosEsperando
      ensures Valid()
      ensures forall c | c in colectivos ::
        posiciones[c] == |c.linea.paradas| && Visitas(eventos, c) == c.linea.paradas
      ensures |Rondas(old(eventos))| <= |Rondas(eventos)|
      ensures Rondas(eventos) == Rondas(old(eventos)) + Numeracion(|Rondas(eventos)| - |Rondas(old(eventos))|)
      ensures AdministracionColectivos.Distintos(colectivos) ==>
        |Rondas(eventos)| - |Rondas(old(eventos))| == MasLargo(colectivos, largos, old(posiciones)) + 1
      ensures |eventos| > 0 && eventos[|eventos| - 1] == Finalizada
    {
      ghost var p0 := posiciones;
      ghost var r0 := Rondas(eventos);
      AlArrancar();
      ghost var rondas: nat := 0;
      var enCurso := true;
      var numeroParada := 1;
      while enCurso
        invariant numeroParada == rondas + 1
        invariant Corriendo(p0, r0, rondas, enCurso)
        decreases Pendientes(colectivos, largos, posiciones) + if enCurso then 1 else 0
      {
        enCurso := Vuelta(numeroParada, p0, r0, rondas);
        numeroParada := numeroParada + 1;
        rondas := rondas + 1;
      }
      Finalizar(p0, r0, rondas);
    }

    /**
      The closing line of the run, once every vehicle stands at the end of its
      route: the log then shows each vehicle arriving at all its stops, and
      the closing line opens no round.
    */
    method Finalizar(ghost p0: map<Colectivo, int>, ghost r0: seq<int>, ghost rondas: nat)
      requires Corriendo(p0, r0, rondas, false)
      modifies this`eventos
      ensures Valid()
      ensures forall c | c in colectivos ::
        posiciones[c] == |c.linea.paradas| && Visitas(eventos, c) == c.linea.paradas
      ensures |r0| <= |Rondas(eventos)|
      ensures Rondas(eventos) == r0 + Numeracion(|Rondas(eventos)| - |r0|)
      ensures AdministracionColectivos.Distintos(colectivos) ==>
        |Rondas(eventos)| - |r0| == MasLargo(colectivos, largos, p0) + 1
      ensures |eventos| > 0 && eventos[|eventos| - 1] == Finalizada
    {
      ProgresoFinal(colectivos, largos, p0, posiciones, rondas);
      ghost var e1 := eventos;
      eventos := eventos + [Finalizada];
      RondasAlCerrar(r0, e1, rondas);
      forall c | c in colectivos
        ensures Visitas(eventos, c) == c.linea.paradas
      {
        VisitasTrasLinea(e1, Finalizada, c);
        assert c.linea.paradas[..posiciones[c]] == c.linea.paradas;
      }
    }

    /**
      The state of the run after `rondas` rounds, counted from positions `p0`
      and round numbers `r0` at its start: consistent, the rounds numbered
      1, ..., rondas, every vehicle at the end of its route once the run
      stops, and the count of rounds of a list without repetitions.
    */
    ghost predicate Corriendo(p0: map<Colectivo, int>, r0: seq<int>, rondas: nat, enCurso: bool)
      reads this, Lineas()
    {
      && Valid() && EnRuta(colectivos, largos, posiciones)
      && Numeradas(r0, Rondas(eventos), rondas)
      && (!enCurso ==> forall c | c in colectivos :: posiciones[c] == largos[c])
      && Progreso(colectivos, largos, p0, posiciones, rondas, enCurso)
    }

    /** Before the first round nothing has been counted yet. */
    lemma AlArrancar()
      requires Valid()
      ensures Corriendo(posiciones, Rondas(eventos), 0, true)
    {
      ValidEnRuta();
    }

    /**
      One pass of the main loop: round `numeroParada` runs; the stops still
      ahead shrink while the run goes on.
    */
    method Vuelta(numeroParada: int, ghost p0: map<Colectivo, int>, ghost r0: seq<int>, ghost rondas: nat)
      returns (enCurso: bool)
      requires numeroParada == rondas + 1 && Corriendo(p0, r0, rondas, true)
      modifies this`posiciones, this`eventos, Vehiculos()`pasajeros, recorridos`pasajerosEsperando
      ensures Corriendo(p0, r0, rondas + 1, enCurso)
      ensures Pendientes(colectivos, largos, posiciones) + (if enCurso then 1 else 0)
        < old(Pendientes(colectivos, largos, posiciones)) + 1
    {
      ghost var p1 := posiciones;
      ghost var e1 := eventos;
      enCurso := Ronda(numeroParada);
      PendientesTrasRonda(colectivos, largos, p1, posiciones);
      if !enCurso {
        RondaQuieta(colectivos, largos, p1, posiciones);
      }
      ProgresoSigue(colectivos, largos, p0, rondas, p1, posiciones);
      NumeracionSigue(r0, Rondas(e1), Rondas(eventos), rondas, numeroParada);
    }

    /**
      The state inside round after round `i` list entries have taken their
      turn, counted from positions `p0` and log `e1` at the start of the turns:
      each vehicle moved once per entry so far, up to the end of its route;
      `enCurso` says whether one of those entries was short of the end of its
      route; the turns printed no round line.
    */
    ghost predicate EnRonda(p0: map<Colectivo, int>, e1: seq<Evento>, i: int, enCurso: bool)
      reads this, Lineas()
    {
      && 0 <= i <= |colectivos|
      && Valid() && EnRuta(colectivos, largos, p0)
      && AvanzadosPor(colectivos, largos, p0, posiciones, i)
      && enCurso == HayPendiente(colectivos, largos, p0, i)
      && e1 <= eventos && SinAperturas(eventos[|e1|..])
    }

    /**
      One round, numbered `numeroParada`: every vehicle takes its turn, in list
      order. A vehicle listed `k` times moves up to `k` stops, never past the
      end of its route; the round reports whether some vehicle moved, which
      happens exactly when some vehicle was not yet at the end of its route.
    */
    method Ronda(numeroParada: int) returns (enCurso: bool)
      requires Valid()
      modifies this`posiciones, this`eventos, Vehiculos()`pasajeros, recorridos`pasajerosEsperando
      ensures Valid()
      ensures EnRuta(colectivos, largos, old(posiciones))
      ensures AvanzadosPor(colectivos, largos, old(posiciones), posiciones, |colectivos|)
      ensures enCurso <==> AlgunoEnCurso(colectivos, largos, old(posiciones))
      ensures Rondas(eventos) == Rondas(old(eventos)) + [numeroParada]
    {
      ghost var p0 := posiciones;
      ghost var e0 := eventos;
      ValidEnRuta();
      eventos := eventos + [InicioParada(numeroParada)];
      RondasTrasLinea(e0, InicioParada(numeroParada));
      forall c | c in colectivos
        ensures Visitas(eventos, c) == Visitas(e0, c)
      {
        VisitasTrasLinea(e0, InicioParada(numeroParada), c);
      }
      ghost var e1 := eventos;
      enCurso := false;
      for i := 0 to |colectivos|
        invariant EnRonda(p0, e1, i, enCurso)
      {
        enCurso := Turno(i, enCurso, p0, e1);
      }
      HayPendienteEnLista(colectivos, largos, p0);
      assert eventos == e1 + eventos[|e1|..];
      RondasSinAperturas(e1, eventos[|e1|..]);
    }

    /**
      The turn of list entry `i` inside a round: its vehicle serves a stop or
      reports that it finished, and the round goes on if it moved.
    */
    method Turno(i: int, enCurso: bool, ghost p0: map<Colectivo, int>, ghost e1: seq<Evento>)
      returns (sigue: bool)
      requires 0 <= i < |colectivos| && EnRonda(p0, e1, i, enCurso)
      modifies this`posiciones, this`eventos, Vehiculos()`pasajeros, recorridos`pasajerosEsperando
      ensures EnRonda(p0, e1, i + 1, sigue)
    {
      var c := colectivos[i];
      ghost var p1 := posiciones;
      ghost var ea := eventos;
      EnRecorrido(c);
      var avanzo := ProcesarColectivo(c);
      SinAperturasSigue(e1, ea, eventos);
      TurnoEnRonda(colectivos, largos, i, p0, p1, posiciones, avanzo);
      sigue := enCurso;
      if avanzo {
        sigue := true;
      }
    }

    /**
      One vehicle's turn: within its route it serves the stop at its position
      and moves to the next one, reporting that it moved; at the end of its
      route it only reports that it has finished.
    */
    method ProcesarColectivo(c: Colectivo) returns (avanzo: bool)
      requires Valid() && c in colectivos
      modifies this`posiciones, this`eventos, c`pasajeros, ParadaActual(c)`pasajerosEsperando
      ensures Valid()
      ensures avanzo <==> old(posiciones[c]) < largos[c]
      ensures avanzo ==> posiciones == old(posiciones)[c := old(posiciones[c]) + 1]
      ensures !avanzo ==> posiciones == old(posiciones)
      ensures old(eventos) <= eventos && SinAperturas(eventos[|old(eventos)|..])
      ensures !avanzo ==> eventos == old(eventos) + [Finalizo(c)] && c.pasajeros == old(c.pasajeros)
      ensures avanzo ==>
        Atendida(c, c.linea.paradas, old(posiciones[c]), maxCapacidad,
                    old((c.pasajeros, c.linea.paradas[posiciones[c]].pasajerosEsperando)),
                    (c.pasajeros, c.linea.paradas[old(posiciones[c])].pasajerosEsperando),
                    eventos[|old(eventos)|..])
    {
      var pos := posiciones[c];
      ghost var e0 := eventos;
      if pos < |c.linea.paradas| {
        AtenderYAvanzar(c);
        avanzo := true;
      } else {
        CoherenteTrasLinea(posiciones, eventos, Finalizo(c));
        eventos := eventos + [Finalizo(c)];
        avanzo := false;
        assert eventos[|e0|..] == [Finalizo(c)];
      }
    }

    /**
      A vehicle short of the end of its route serves the stop at its position,
      logs what happened there and moves on to the next stop.
    */
    method AtenderYAvanzar(c: Colectivo)
      requires Valid() && c in colectivos && posiciones[c] < |c.linea.paradas|
      modifies this`posiciones, this`eventos, c`pasajeros, ParadaActual(c)`pasajerosEsperando
      ensures Valid()
      ensures posiciones == old(posiciones)[c := old(posiciones[c]) + 1]
      ensures old(eventos) <= eventos && SinAperturas(eventos[|old(eventos)|..])
      ensures Atendida(c, c.linea.paradas, old(posiciones[c]), maxCapacidad,
                       old((c.pasajeros, c.linea.paradas[posiciones[c]].pasajerosEsperando)),
                       (c.pasajeros, c.linea.paradas[old(posiciones[c])].pasajerosEsperando),
                       eventos[|old(eventos)|..])
    {
      var pos := posiciones[c];
      var paradas := c.linea.paradas;
      ghost var e0 := eventos;
      ghost var antes := (c.pasajeros, paradas[pos].pasajerosEsperando);
      var vistas := ServirParada(c, pos);
      ghost var paso := AtenderParada(antes.0, antes.1, paradas[pos], DestinoEn(Siguientes(paradas, pos)), maxCapacidad);
      assert vistas == EventosDeParada(c, paradas[pos], paso);
      CoherenteTrasParada(posiciones, eventos, c, paso);
      posiciones, eventos := posiciones[c := pos + 1], eventos + vistas;
    }

    /**
      At stop `c.linea.paradas[pos]`: announce the arrival, let off everyone
      travelling there, board from the queue those travelling to a later stop
      of the route, up to the capacity, and report both lists and the number
      on board.
    */
    method ServirParada(c: Colectivo, pos: int) returns (vistas: seq<Evento>)
      requires 0 <= pos < |c.linea.paradas|
      modifies c`pasajeros, (c.linea.paradas[pos] as Parada)`pasajerosEsperando
      ensures Atendida(c, c.linea.paradas, pos, maxCapacidad,
                       old((c.pasajeros, c.linea.paradas[pos].pasajerosEsperando)),
                       (c.pasajeros, c.linea.paradas[pos].pasajerosEsperando), vistas)
    {
      var paradas := c.linea.paradas;
      var actual := paradas[pos];
      ghost var abordo0, esperando0 := c.pasajeros, actual.pasajerosEsperando;
      var bajaron := c.BajarPasajerosEn(actual);
      ghost var quedan := c.pasajeros;
      var subieron := c.SubirPasajerosHacia(actual, Siguientes(paradas, pos), maxCapacidad);
      AtenderParadaPorPartes(abordo0, esperando0, actual, DestinoEn(Siguientes(paradas, pos)), maxCapacidad,
                             bajaron, quedan, subieron, actual.pasajerosEsperando);
      vistas := [Llegada(c, actual), Movimientos(bajaron, subieron), Resumen(|bajaron|, |subieron|, |c.pasajeros|)];
    }
  }
}
