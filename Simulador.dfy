/**
  The lap engine (src/logic/Simulador.java). Every vehicle carries a position
  on its line and a count of completed laps. Rounds run in lock step: in each
  round every vehicle, in list order, either serves the stop at its position,
  or closes a lap at the end of its route, or, once it has used up its laps,
  does nothing. The run ends after the first round in which no vehicle reports
  itself active.
*/
module Simulacion {
  import opened Seleccion
  import opened Paradas
  import opened Lineas
  import opened Colectivos
  import AdministracionColectivos

  /** The progress of one vehicle: completed laps and position on the route. */
  datatype Estado = Estado(vueltas: int, posicion: int)

  /**
    The bookkeeping step of procesarColectivoEnParada on a vehicle with a
    route of `largo` stops: the new progress and whether the vehicle reports
    itself active.
  */
  function Avanzar(e: Estado, largo: int, maxVueltas: int): (Estado, bool)
  {
    if e.vueltas >= maxVueltas then (e, false)
    else if e.posicion < largo then (Estado(e.vueltas, e.posicion + 1), true)
    else if e.vueltas + 1 < maxVueltas then (Estado(e.vueltas + 1, 0), true)
    else (Estado(e.vueltas + 1, e.posicion), false)
  }

  /**
    The progress a vehicle can be in: within its route, laps between zero and
    the maximum, and, once retired, at the end of its route (or still at its
    start when no lap was to be run at all).
  */
  ghost predicate Consistente(e: Estado, largo: int, maxVueltas: int)
  {
    && 0 <= e.posicion <= largo
    && 0 <= e.vueltas
    && (e.vueltas <= maxVueltas || e.vueltas == 0)
    && (e.vueltas >= maxVueltas ==> e.posicion == if maxVueltas > 0 then largo else 0)
  }

  /** The work a vehicle has left: processing steps until it retires. */
  function Restante(e: Estado, largo: int, maxVueltas: int): nat
    requires 0 <= e.posicion <= largo
  {
    if e.vueltas >= maxVueltas then 0
    else
      MulCota(maxVueltas - e.vueltas, largo + 1);
      (maxVueltas - e.vueltas) * (largo + 1) - e.posicion
  }

  lemma MulCota(a: int, b: int)
    requires a >= 1 && b >= 0
    ensures a * b >= b
  {
    assert a * b == (a - 1) * b + b;
  }

  /** A vehicle just built, at position 0 with no laps, is consistent. */
  lemma InicialConsistente(largo: nat, maxVueltas: int)
    ensures Consistente(Estado(0, 0), largo, maxVueltas)
  {
  }

  /**
    Every step keeps the progress consistent; a retired vehicle stays put and
    reports inactive; a vehicle reporting inactive is retired.
  */
  lemma AvanzarConserva(e: Estado, largo: int, maxVueltas: int)
    requires Consistente(e, largo, maxVueltas)
    ensures Consistente(Avanzar(e, largo, maxVueltas).0, largo, maxVueltas)
    ensures e.vueltas >= maxVueltas ==> Avanzar(e, largo, maxVueltas) == (e, false)
    ensures !Avanzar(e, largo, maxVueltas).1 ==> Avanzar(e, largo, maxVueltas).0.vueltas >= maxVueltas
  {
  }

  /**
    Every step of a vehicle that has laps left uses up exactly one unit of
    its remaining work, so the remaining work strictly decreases on every step
    that reports active.
  */
  lemma {:induction false} AvanzarDescuenta(e: Estado, largo: int, maxVueltas: int)
    requires 0 <= e.posicion <= largo
    ensures 0 <= Avanzar(e, largo, maxVueltas).0.posicion <= largo
    ensures e.vueltas < maxVueltas ==>
      Restante(Avanzar(e, largo, maxVueltas).0, largo, maxVueltas) == Restante(e, largo, maxVueltas) - 1
    ensures e.vueltas >= maxVueltas ==>
      Restante(Avanzar(e, largo, maxVueltas).0, largo, maxVueltas) == Restante(e, largo, maxVueltas) == 0
  {
    if e.vueltas < maxVueltas && e.posicion == largo && e.vueltas + 1 < maxVueltas {
      var m := maxVueltas - e.vueltas;
      assert m * (largo + 1) == (m - 1) * (largo + 1) + (largo + 1);
    }
  }

  /**
    A vehicle starting its first lap has exactly `maxVueltas * (largo + 1)`
    steps of work: one per stop and one end-of-route step per lap.
  */
  lemma RestanteInicial(largo: nat, maxVueltas: int)
    ensures Restante(Estado(0, 0), largo, maxVueltas) == if maxVueltas > 0 then maxVueltas * (largo + 1) else 0
  {
  }

  /** A consistent, retired vehicle has run all its laps and sits where it finished. */
  lemma RetiradoAlFinal(e: Estado, largo: int, maxVueltas: int)
    requires Consistente(e, largo, maxVueltas) && e.vueltas >= maxVueltas
    ensures e == Estado(if maxVueltas > 0 then maxVueltas else 0, if maxVueltas > 0 then largo else 0)
  {
  }

  /** A vehicle's manifest and occupancy history, and the queue of the stop it serves. */
  datatype Carga = Carga(abordo: seq<Pasajero>, esperando: seq<Pasajero>, ocupacion: seq<int>)

  /** The view calls made while a vehicle serves a stop, in order. */
  datatype Evento =
    | InicioParada(numero: int)
    | Llegada(colectivo: Colectivo, parada: Parada)
    | EventosPasajeros(bajaron: seq<Pasajero>, subieron: seq<Pasajero>)
    | EstadoColectivo(colectivo: Colectivo, cuantosBajaron: int, cuantosSubieron: int)
    | ColectivoLleno(colectivo: Colectivo, parada: Parada, esperando: int)
    | FinRecorrido(colectivo: Colectivo)
    | EstadisticasFinales

  /**
    The events of procesarParada: arrival, who got off and on, the state of the
    vehicle, and, only when the vehicle is exactly full, a warning with the
    number of passengers still waiting who would want to board it.
  */
  function EventosDeParada(c: Colectivo, actual: Parada, paso: Paso, maxCapacidad: int,
                           quiere: QuiereSubir): seq<Evento>
  {
    [Llegada(c, actual), EventosPasajeros(paso.bajaron, paso.subieron),
     EstadoColectivo(c, |paso.bajaron|, |paso.subieron|)]
    + if |paso.abordo| == maxCapacidad
      then [ColectivoLleno(c, actual, |Filtro(paso.esperando, QuiereSubirA(quiere, c, actual))|)]
      else []
  }

  /**
    The remaining work of a list of vehicles, counted once per list entry;
    `largos` gives the number of stops of each vehicle's route.
  */
  ghost function Suma(cs: seq<Colectivo>, posiciones: map<Colectivo, int>, vueltas: map<Colectivo, int>,
                      largos: map<Colectivo, int>, maxVueltas: int): nat
    requires forall c | c in cs :: c in posiciones && c in vueltas && c in largos && 0 <= posiciones[c] <= largos[c]
  {
    if cs == [] then 0
    else
      Restante(Estado(vueltas[cs[0]], posiciones[cs[0]]), largos[cs[0]], maxVueltas)
      + Suma(cs[1..], posiciones, vueltas, largos, maxVueltas)
  }

  /**
    Updating the progress of one vehicle `c` without increasing its remaining
    work does not increase the total; decreasing it, for a listed vehicle,
    decreases the total.
  */
  lemma {:induction false} SumaBaja(cs: seq<Colectivo>, p: map<Colectivo, int>, v: map<Colectivo, int>,
                                    p2: map<Colectivo, int>, v2: map<Colectivo, int>,
                                    largos: map<Colectivo, int>, c: Colectivo, maxVueltas: int)
    requires forall d | d in cs :: d in p && d in v && d in largos && 0 <= p[d] <= largos[d]
    requires forall d | d in cs :: d in p2 && d in v2 && 0 <= p2[d] <= largos[d]
    requires forall d | d in cs && d != c :: p2[d] == p[d] && v2[d] == v[d]
    requires c in cs ==>
      Restante(Estado(v2[c], p2[c]), largos[c], maxVueltas) <= Restante(Estado(v[c], p[c]), largos[c], maxVueltas)
    ensures Suma(cs, p2, v2, largos, maxVueltas) <= Suma(cs, p, v, largos, maxVueltas)
    ensures c in cs && Restante(Estado(v2[c], p2[c]), largos[c], maxVueltas)
                     < Restante(Estado(v[c], p[c]), largos[c], maxVueltas)
      ==> Suma(cs, p2, v2, largos, maxVueltas) < Suma(cs, p, v, largos, maxVueltas)
  {
    if cs != [] {
      assert forall d | d in cs[1..] :: d in cs;
      SumaBaja(cs[1..], p, v, p2, v2, largos, c, maxVueltas);
    }
  }

  /** The map sending each vehicle of `cs` to 0. */
  function Ceros(cs: seq<Colectivo>): (m: map<Colectivo, int>)
    ensures m.Keys == set c | c in cs
    ensures forall c | c in m :: m[c] == 0
  {
    map c | c in cs :: 0
  }

  lemma CerosAgregar(m: map<Colectivo, int>, cs: seq<Colectivo>, c: Colectivo)
    ensures m + Ceros(cs + [c]) == (m + Ceros(cs))[c := 0]
  {
  }

  /**
    Every vehicle of `cs` has an entry in both progress maps and a route
    length, and its progress is consistent.
  */
  ghost predicate Progresos(cs: seq<Colectivo>, posiciones: map<Colectivo, int>, vueltas: map<Colectivo, int>,
                            largos: map<Colectivo, int>, maxVueltas: int)
  {
    forall c | c in cs ::
      && c in posiciones && c in vueltas && c in largos
      && Consistente(Estado(vueltas[c], posiciones[c]), largos[c], maxVueltas)
  }

  /** Replacing the progress of one vehicle by a consistent one keeps every progress consistent. */
  lemma ProgresoActualizado(cs: seq<Colectivo>, p: map<Colectivo, int>, v: map<Colectivo, int>,
                            p2: map<Colectivo, int>, v2: map<Colectivo, int>,
                            largos: map<Colectivo, int>, maxVueltas: int, c: Colectivo, e: Estado)
    requires Progresos(cs, p, v, largos, maxVueltas)
    requires c in largos && Consistente(e, largos[c], maxVueltas)
    requires p2 == p[c := e.posicion] && v2 == v[c := e.vueltas]
    ensures Progresos(cs, p2, v2, largos, maxVueltas)
  {
  }

  /** Every vehicle of `cs` has used up its laps. */
  ghost predicate Retirados(cs: seq<Colectivo>, vueltas: map<Colectivo, int>, maxVueltas: int)
  {
    forall c | c in cs :: c in vueltas && vueltas[c] >= maxVueltas
  }

  /**
    After a turn that changed only the lap count of `c`, leaving it retired,
    the retired prefix grows by `c`.
  */
  lemma RetiradosAgregar(cs: seq<Colectivo>, i: int, v: map<Colectivo, int>, v2: map<Colectivo, int>,
                         maxVueltas: int)
    requires 0 <= i < |cs| && Retirados(cs[..i], v, maxVueltas)
    requires cs[i] in v2 && v2 == v[cs[i] := v2[cs[i]]] && v2[cs[i]] >= maxVueltas
    ensures Retirados(cs[..i + 1], v2, maxVueltas)
  {
    assert cs[..i + 1] == cs[..i] + [cs[i]];
  }

  /** The result of a round so far: positions, lap counts, and whether some turn reported active. */
  type Progreso = (map<Colectivo, int>, map<Colectivo, int>, bool)

  /** Every vehicle that reports inactive has used up its laps, and a retired vehicle stays put. */
  lemma AvanzarInactivo(e: Estado, largo: int, maxVueltas: int)
    ensures !Avanzar(e, largo, maxVueltas).1 ==> Avanzar(e, largo, maxVueltas).0.vueltas >= maxVueltas
    ensures e.vueltas >= maxVueltas ==> Avanzar(e, largo, maxVueltas) == (e, false)
  {
  }

  /** The turn of vehicle `c` on the result `r` of the turns before it. */
  function Paso(r: Progreso, c: Colectivo, largos: map<Colectivo, int>, maxVueltas: int): Progreso
    requires c in r.0 && c in r.1 && c in largos
  {
    var s := Avanzar(Estado(r.1[c], r.0[c]), largos[c], maxVueltas);
    (r.0[c := s.0.posicion], r.1[c := s.0.vueltas], r.2 || s.1)
  }

  /**
    The progress side of one round: the first `n` list entries take their
    turn in list order, each stepping by Avanzar from the progress the earlier
    turns left (a vehicle listed twice steps twice). The result is the new
    positions, the new lap counts, and whether some turn reported its vehicle
    active.
  */
  function Turnos(cs: seq<Colectivo>, n: nat, posiciones: map<Colectivo, int>, vueltas: map<Colectivo, int>,
                  largos: map<Colectivo, int>, maxVueltas: int): (r: Progreso)
    requires n <= |cs|
    requires forall c | c in cs :: c in posiciones && c in vueltas && c in largos
    ensures forall c | c in posiciones :: c in r.0
    ensures forall c | c in vueltas :: c in r.1
    decreases n
  {
    if n == 0 then (posiciones, vueltas, false)
    else Paso(Turnos(cs, n - 1, posiciones, vueltas, largos, maxVueltas), cs[n - 1], largos, maxVueltas)
  }

  /** Whether vehicle `c`, with the progress it has in `p` and `v`, would report itself active. */
  function ActivoDesde(c: Colectivo, p: map<Colectivo, int>, v: map<Colectivo, int>,
                       largos: map<Colectivo, int>, maxVueltas: int): bool
    requires c in p && c in v && c in largos
  {
    Avanzar(Estado(v[c], p[c]), largos[c], maxVueltas).1
  }

  /** A vehicle that none of the first `n` turns names keeps its progress. */
  lemma {:induction false} TurnosIntacto(cs: seq<Colectivo>, n: nat, p: map<Colectivo, int>, v: map<Colectivo, int>,
                                         largos: map<Colectivo, int>, maxVueltas: int, c: Colectivo)
    requires n <= |cs|
    requires forall d | d in cs :: d in p && d in v && d in largos
    requires c in p && c in v && forall k | 0 <= k < n :: cs[k] != c
    ensures Turnos(cs, n, p, v, largos, maxVueltas).0[c] == p[c]
    ensures Turnos(cs, n, p, v, largos, maxVueltas).1[c] == v[c]
  {
    if n > 0 {
      TurnosIntacto(cs, n - 1, p, v, largos, maxVueltas, c);
      assert cs[n - 1] != c;
    }
  }

  /**
    A vehicle named by one of the first `n` turns that, with the progress it
    had when the round began, would have reported inactive, has used up its
    laps after them.
  */
  lemma {:induction false} TurnosRetira(cs: seq<Colectivo>, n: nat, p: map<Colectivo, int>, v: map<Colectivo, int>,
                                        largos: map<Colectivo, int>, maxVueltas: int, k: nat)
    requires k < n <= |cs|
    requires forall d | d in cs :: d in p && d in v && d in largos
    requires !ActivoDesde(cs[k], p, v, largos, maxVueltas)
    ensures Turnos(cs, n, p, v, largos, maxVueltas).1[cs[k]] >= maxVueltas
  {
    var antes := Turnos(cs, n - 1, p, v, largos, maxVueltas);
    var c := cs[n - 1];
    AvanzarInactivo(Estado(antes.1[c], antes.0[c]), largos[c], maxVueltas);
    if k < n - 1 {
      TurnosRetira(cs, n - 1, p, v, largos, maxVueltas, k);
    } else if j :| 0 <= j < k && cs[j] == c {
      TurnosRetira(cs, n - 1, p, v, largos, maxVueltas, j);
    } else {
      TurnosIntacto(cs, n - 1, p, v, largos, maxVueltas, c);
    }
  }

  /**
    Turn `n` leaves the round active iff it was already, or its vehicle would
    have reported active with the progress it had when the round began.
  */
  lemma TurnoActivo(cs: seq<Colectivo>, n: nat, p: map<Colectivo, int>, v: map<Colectivo, int>,
                    largos: map<Colectivo, int>, maxVueltas: int)
    requires n < |cs|
    requires forall d | d in cs :: d in p && d in v && d in largos
    requires Turnos(cs, n, p, v, largos, maxVueltas).2
        <==> exists k | 0 <= k < n :: ActivoDesde(cs[k], p, v, largos, maxVueltas)
    ensures Turnos(cs, n + 1, p, v, largos, maxVueltas).2
        <==> Turnos(cs, n, p, v, largos, maxVueltas).2 || ActivoDesde(cs[n], p, v, largos, maxVueltas)
  {
    var antes := Turnos(cs, n, p, v, largos, maxVueltas);
    var c := cs[n];
    if j :| 0 <= j < n && cs[j] == c {
      if !ActivoDesde(c, p, v, largos, maxVueltas) {
        TurnosRetira(cs, n, p, v, largos, maxVueltas, j);
        AvanzarInactivo(Estado(antes.1[c], antes.0[c]), largos[c], maxVueltas);
      }
    } else {
      TurnosIntacto(cs, n, p, v, largos, maxVueltas, c);
    }
  }

  /**
    After the first `n` turns the round is active iff one of those entries
    would have reported active with the progress it had when the round began.
  */
  lemma {:induction false} TurnosActivoPrefijo(cs: seq<Colectivo>, n: nat, p: map<Colectivo, int>,
                                               v: map<Colectivo, int>, largos: map<Colectivo, int>, maxVueltas: int)
    requires n <= |cs|
    requires forall d | d in cs :: d in p && d in v && d in largos
    ensures Turnos(cs, n, p, v, largos, maxVueltas).2
        <==> exists k | 0 <= k < n :: ActivoDesde(cs[k], p, v, largos, maxVueltas)
  {
    if n > 0 {
      TurnosActivoPrefijo(cs, n - 1, p, v, largos, maxVueltas);
      TurnoActivo(cs, n - 1, p, v, largos, maxVueltas);
    }
  }

  /**
    A round is active iff some listed vehicle, with the progress it had when
    the round began, would report itself active; a vehicle listed twice does
    not change that.
  */
  lemma TurnosActivo(cs: seq<Colectivo>, p: map<Colectivo, int>, v: map<Colectivo, int>,
                     largos: map<Colectivo, int>, maxVueltas: int)
    requires forall c | c in cs :: c in p && c in v && c in largos
    ensures Turnos(cs, |cs|, p, v, largos, maxVueltas).2
        <==> exists c | c in cs :: ActivoDesde(c, p, v, largos, maxVueltas)
  {
    TurnosActivoPrefijo(cs, |cs|, p, v, largos, maxVueltas);
    if c :| c in cs && ActivoDesde(c, p, v, largos, maxVueltas) {
      var k :| 0 <= k < |cs| && cs[k] == c;
      assert ActivoDesde(cs[k], p, v, largos, maxVueltas);
    }
  }

  /**
    When no vehicle is listed twice, each of the first `n` turns steps its
    vehicle once, from the progress it had when the round began.
  */
  lemma {:induction false} TurnosUnaVez(cs: seq<Colectivo>, n: nat, p: map<Colectivo, int>, v: map<Colectivo, int>,
                                        largos: map<Colectivo, int>, maxVueltas: int, k: nat)
    requires k < n <= |cs| && AdministracionColectivos.Distintos(cs)
    requires forall d | d in cs :: d in p && d in v && d in largos
    ensures var r := Turnos(cs, n, p, v, largos, maxVueltas);
      Estado(r.1[cs[k]], r.0[cs[k]]) == Avanzar(Estado(v[cs[k]], p[cs[k]]), largos[cs[k]], maxVueltas).0
  {
    if k < n - 1 {
      TurnosUnaVez(cs, n - 1, p, v, largos, maxVueltas, k);
      assert cs[n - 1] != cs[k];
    } else {
      TurnosIntacto(cs, n - 1, p, v, largos, maxVueltas, cs[k]);
    }
  }

  class Simulador {
    const colectivos: seq<Colectivo>
    const maxCapacidad: int
    const maxVueltas: int
    /** The boarding wish of passengers (Pasajero.quiereSubirA). */
    const quiere: QuiereSubir
    var posiciones: map<Colectivo, int>
    var vueltas: map<Colectivo, int>
    /** The view calls made so far. */
    var eventos: seq<Evento>
    /** The calificarAlSubir calls made so far. */
    var calificaciones: seq<Calificacion>
    /** The number of stops of each vehicle's route, as it was at construction. */
    ghost const largos: map<Colectivo, int>
    /** Every stop of every line a vehicle runs, as they were at construction. */
    ghost const paradas: set<Parada>

    /** The lines the vehicles run; the engine never changes them. */
    ghost function Lineas(): set<Linea>
    {
      set c | c in colectivos :: c.linea
    }

    /** The listed vehicles. */
    ghost function Vehiculos(): set<Colectivo>
    {
      set c | c in colectivos
    }

    /** The stop `c` serves next, if it is within its route. */
    ghost function ParadaActual(c: Colectivo): set<Parada>
      reads this, c.linea
    {
      if c in posiciones && 0 <= posiciones[c] < |c.linea.paradas| then {c.linea.paradas[posiciones[c]]} else {}
    }

    ghost function EstadoDe(c: Colectivo): Estado
      reads this
      requires c in posiciones && c in vueltas
    {
      Estado(vueltas[c], posiciones[c])
    }

    /**
      Every listed vehicle has a consistent progress entry in both maps, and
      no route has changed since construction.
    */
    ghost predicate Valid()
      reads this, Lineas()
    {
      && Progresos(colectivos, posiciones, vueltas, largos, maxVueltas)
      && forall c | c in colectivos ::
           && largos[c] == |c.linea.paradas|
           && (forall p | p in c.linea.paradas :: p in paradas)
    }

    /** The remaining work of the whole fleet. */
    ghost function Total(): nat
      reads this
      requires Progresos(colectivos, posiciones, vueltas, largos, maxVueltas)
    {
      Suma(colectivos, posiciones, vueltas, largos, maxVueltas)
    }

    constructor (colectivos: seq<Colectivo>, maxCapacidad: int, maxVueltas: int, quiere: QuiereSubir)
      ensures Valid()
      ensures this.colectivos == colectivos && this.maxCapacidad == maxCapacidad
      ensures this.maxVueltas == maxVueltas && this.quiere == quiere
      ensures forall c | c in colectivos :: posiciones[c] == 0 && vueltas[c] == 0
      ensures posiciones.Keys == vueltas.Keys == set c | c in colectivos
      ensures eventos == [] && calificaciones == []
    {
      this.colectivos := colectivos;
      this.maxCapacidad := maxCapacidad;
      this.maxVueltas := maxVueltas;
      this.quiere := quiere;
      largos := map c | c in colectivos :: |c.linea.paradas|;
      paradas := set c, p | c in colectivos && p in c.linea.paradas :: p;
      posiciones := map[];
      vueltas := map[];
      eventos := [];
      calificaciones := [];
      new;
      InicializarColectivos();
    }

    /** Puts every listed vehicle at position 0 with 0 laps; other entries stay. */
    method InicializarColectivos()
      modifies this`posiciones, this`vueltas
      ensures posiciones == old(posiciones) + Ceros(colectivos)
      ensures vueltas == old(vueltas) + Ceros(colectivos)
    {
      for i := 0 to |colectivos|
        invariant posiciones == old(posiciones) + Ceros(colectivos[..i])
        invariant vueltas == old(vueltas) + Ceros(colectivos[..i])
      {
        CerosAgregar(old(posiciones), colectivos[..i], colectivos[i]);
        CerosAgregar(old(vueltas), colectivos[..i], colectivos[i]);
        assert colectivos[..i + 1] == colectivos[..i] + [colectivos[i]];
        posiciones := posiciones[colectivos[i] := 0];
        vueltas := vueltas[colectivos[i] := 0];
      }
      assert colectivos[..|colectivos|] == colectivos;
    }

    /**
      Runs rounds until one passes in which no vehicle reports itself active,
      then hands over to the final statistics. When it returns, every vehicle
      has run all its laps and stands at the end of its route.
    */
    method Ejecutar()
      requires Valid()
      modifies this, Vehiculos(), paradas
      ensures Valid()
      ensures forall c | c in colectivos ::
        && vueltas[c] == (if maxVueltas > 0 then maxVueltas else 0)
        && posiciones[c] == (if maxVueltas > 0 then |c.linea.paradas| else 0)
    {
      var enCurso := true;
      var numeroParada := 1;
      while enCurso
        invariant Valid()
        invariant !enCurso ==> Retirados(colectivos, vueltas, maxVueltas)
        decreases Total() + if enCurso then 1 else 0
      {
        enCurso := Ronda(numeroParada);
        numeroParada := numeroParada + 1;
      }
      forall c | c in colectivos
        ensures vueltas[c] == (if maxVueltas > 0 then maxVueltas else 0)
        ensures posiciones[c] == (if maxVueltas > 0 then |c.linea.paradas| else 0)
      {
        RetiradoAlFinal(EstadoDe(c), |c.linea.paradas|, maxVueltas);
      }
      eventos := eventos + [EstadisticasFinales];
    }

    /**
      One round, numbered `numeroParada`: every vehicle takes its turn, in list
      order. Positions, lap counts and the round flag are what Turnos gives
      for the whole list, so the round is active iff some listed vehicle, as
      it stood when the round began, had a step that reports active. If so the
      fleet's remaining work went down, and if not every vehicle is retired.
    */
    method Ronda(numeroParada: int) returns (enCurso: bool)
      requires Valid()
      modifies this, Vehiculos(), paradas
      ensures Valid()
      ensures (posiciones, vueltas, enCurso)
           == Turnos(colectivos, |colectivos|, old(posiciones), old(vueltas), largos, maxVueltas)
      ensures enCurso <==> exists c | c in colectivos :: ActivoDesde(c, old(posiciones), old(vueltas), largos, maxVueltas)
      ensures Total() <= old(Total())
      ensures enCurso ==> Total() < old(Total())
      ensures !enCurso ==> Retirados(colectivos, vueltas, maxVueltas)
      ensures |eventos| > |old(eventos)| && eventos[|old(eventos)|] == InicioParada(numeroParada)
    {
      ghost var t0, n0, p0, v0 := Total(), |eventos|, posiciones, vueltas;
      eventos := eventos + [InicioParada(numeroParada)];
      enCurso := false;
      for i := 0 to |colectivos|
        invariant EnRonda(t0, n0, numeroParada, p0, v0, i, enCurso)
      {
        enCurso := Turno(i, enCurso, t0, n0, numeroParada, p0, v0);
      }
      assert colectivos[..|colectivos|] == colectivos;
      TurnosActivo(colectivos, p0, v0, largos, maxVueltas);
    }

    /**
      The state inside round `numeroParada` after `i` list entries have taken
      their turn, counted from remaining work `t0`, progress maps `p0` and
      `v0`, and a log of `n0` lines at the start of the round: positions, lap
      counts and the flag are those Turnos gives for the first `i` entries;
      the fleet's remaining work has not grown, it went down if `enCurso`,
      and otherwise the first `i` entries are retired; the round line stays
      where it was logged.
    */
    ghost predicate EnRonda(t0: int, n0: int, numeroParada: int, p0: map<Colectivo, int>, v0: map<Colectivo, int>,
                            i: int, enCurso: bool)
      reads this, Lineas()
    {
      && 0 <= i <= |colectivos| && Valid()
      && (forall c | c in colectivos :: c in p0 && c in v0 && c in largos)
      && (posiciones, vueltas, enCurso) == Turnos(colectivos, i, p0, v0, largos, maxVueltas)
      && Total() <= t0 && (enCurso ==> Total() < t0)
      && (!enCurso ==> Retirados(colectivos[..i], vueltas, maxVueltas))
      && 0 <= n0 < |eventos| && eventos[n0] == InicioParada(numeroParada)
    }

    /**
      The turn of list entry `i` inside a round: the round stays active iff it
      was already or this turn reports its vehicle active.
    */
    method Turno(i: int, enCurso: bool, ghost t0: int, ghost n0: int, ghost numeroParada: int,
                 ghost p0: map<Colectivo, int>, ghost v0: map<Colectivo, int>)
      returns (sigue: bool)
      requires 0 <= i < |colectivos| && EnRonda(t0, n0, numeroParada, p0, v0, i, enCurso)
      modifies this, Vehiculos(), paradas
      ensures EnRonda(t0, n0, numeroParada, p0, v0, i + 1, sigue)
      ensures sigue == (enCurso || Avanzar(old(EstadoDe(colectivos[i])), largos[colectivos[i]], maxVueltas).1)
    {
      var c := colectivos[i];
      ghost var v1, e0 := vueltas, eventos;
      var activo := ProcesarColectivoEnParada(c);
      assert eventos[n0] == e0[n0] by {
        assert eventos[..|e0|][n0] == e0[n0];
      }
      sigue := enCurso;
      if activo {
        sigue := true;
      } else if !enCurso {
        RetiradosAgregar(colectivos, i, v1, vueltas, maxVueltas);
      }
    }

    /**
      One vehicle's turn in a round: its progress moves as Avanzar says, only
      its own entries change, and when it is within its route it serves the
      stop at its position.
    */
    method ProcesarColectivoEnParada(c: Colectivo) returns (activo: bool)
      requires Valid() && c in colectivos
      modifies this, c, ParadaActual(c)
      ensures Valid()
      ensures c in posiciones && c in vueltas
      ensures (EstadoDe(c), activo) == Avanzar(old(EstadoDe(c)), |c.linea.paradas|, maxVueltas)
      ensures posiciones == old(posiciones)[c := posiciones[c]]
      ensures vueltas == old(vueltas)[c := vueltas[c]]
      ensures !activo ==> vueltas[c] >= maxVueltas
      ensures Total() <= old(Total()) && (activo ==> Total() < old(Total()))
      ensures |old(eventos)| <= |eventos| && eventos[..|old(eventos)|] == old(eventos)
      ensures TurnoCumplido(c)
    {
      AvanzarConserva(EstadoDe(c), |c.linea.paradas|, maxVueltas);
      var pos := posiciones[c];
      var paradas := c.linea.paradas;
      if vueltas[c] < maxVueltas {
        if pos < |paradas| {
          activo := ProcesarParada(c, paradas, pos);
        } else {
          activo := ProcesarFinDeRecorrido(c);
        }
      } else {
        activo := false;
      }
    }

    /**
      What a vehicle's turn did besides moving its progress: a retired vehicle
      does nothing; one at the end of its route only reports it; one within its
      route serves the stop at its position (Servida), and the view calls and
      rating calls it made are appended to the engine's logs.
    */
    twostate predicate TurnoCumplido(c: Colectivo)
      requires old(c in posiciones && c in vueltas)
      reads this, c, c.linea, c.linea.paradas
    {
      if old(vueltas[c]) >= maxVueltas then
        eventos == old(eventos) && calificaciones == old(calificaciones) && unchanged(c)
      else if !old(0 <= posiciones[c] < |c.linea.paradas|) then
        eventos == old(eventos) + [FinRecorrido(c)] && calificaciones == old(calificaciones) && unchanged(c)
      else
        var pos := old(posiciones[c]);
        && pos < |c.linea.paradas|
        && old(c.linea.paradas[posiciones[c]]) == c.linea.paradas[pos]
        && Anotado(old(eventos), eventos, old(calificaciones), calificaciones)
        && Servida(c, c.linea.paradas[pos], c.linea.mapaIndicesParadas, pos,
                   old(CargaDe(c, c.linea.paradas[posiciones[c]])), CargaDe(c, c.linea.paradas[pos]),
                   eventos[|old(eventos)|..], calificaciones[|old(calificaciones)|..])
    }

    /** Each log only grew. */
    ghost predicate Anotado(eventos0: seq<Evento>, eventos1: seq<Evento>,
                            calificaciones0: seq<Calificacion>, calificaciones1: seq<Calificacion>)
    {
      && |eventos0| <= |eventos1| && eventos1[..|eventos0|] == eventos0
      && |calificaciones0| <= |calificaciones1| && calificaciones1[..|calificaciones0|] == calificaciones0
    }

    /** The load of vehicle `c` serving stop `actual`. */
    ghost function CargaDe(c: Colectivo, actual: Parada): Carga
      reads c, actual
    {
      Carga(c.pasajeros, actual.pasajerosEsperando, c.ocupacionPorTramo)
    }

    /**
      The effect of vehicle `c` serving stop `actual`, at position `pos` of a
      line with index map `indices`: the load goes from `antes` to `despues`,
      making the view calls `vistas` and the rating calls `calificados`.
    */
    ghost predicate Servida(c: Colectivo, actual: Parada, indices: map<Parada, int>, pos: int,
                            antes: Carga, despues: Carga, vistas: seq<Evento>, calificados: seq<Calificacion>)
    {
      var paso := AtenderParada(antes.abordo, antes.esperando, actual,
                                Abordable(indices, pos, c, actual, quiere), maxCapacidad);
      && despues.abordo == paso.abordo
      && despues.esperando == paso.esperando
      && despues.ocupacion == antes.ocupacion + [|paso.abordo|]
      && calificados == Calificaciones(paso.subieron, |paso.abordo| - |paso.subieron|, maxCapacidad)
      && vistas == EventosDeParada(c, actual, paso, maxCapacidad, quiere)
    }

    /**
      Serves stop `paradas[pos]`: the stop part of the turn (see ServirParada),
      the view and rating calls appended to the logs, and the move to position
      `pos + 1`. Reports active.
    */
    method ProcesarParada(c: Colectivo, paradas: seq<Parada>, pos: int) returns (activo: bool)
      requires Valid() && c in colectivos && c in posiciones && c in vueltas
      requires paradas == c.linea.paradas && posiciones[c] == pos && 0 <= pos < |paradas|
      requires vueltas[c] < maxVueltas
      modifies this, c, paradas[pos]
      ensures Valid()
      ensures activo
      ensures posiciones == old(posiciones)[c := pos + 1] && vueltas == old(vueltas)
      ensures Total() < old(Total())
      ensures Anotado(old(eventos), eventos, old(calificaciones), calificaciones)
      ensures Servida(c, paradas[pos], c.linea.mapaIndicesParadas, pos, old(CargaDe(c, paradas[pos])),
                      CargaDe(c, paradas[pos]), eventos[|old(eventos)|..], calificaciones[|old(calificaciones)|..])
    {
      var vistas, calificados := ServirParada(c, pos);
      eventos := eventos + vistas;
      calificaciones := calificaciones + calificados;
      assert eventos[|old(eventos)|..] == vistas;
      assert calificaciones[|old(calificaciones)|..] == calificados;
      ghost var p0 := posiciones;
      posiciones := posiciones[c := pos + 1];
      ProgresoActualizado(colectivos, p0, vueltas, posiciones, vueltas, largos, maxVueltas, c,
                          Estado(vueltas[c], pos + 1));
      AvanzarDescuenta(Estado(vueltas[c], pos), |paradas|, maxVueltas);
      SumaBaja(colectivos, p0, vueltas, posiciones, vueltas, largos, c, maxVueltas);
      activo := true;
    }

    /**
      At stop `c.linea.paradas[pos]`: announce the arrival, let off everyone
      travelling there, board from the queue, report both lists and the new
      state of the vehicle, record the occupancy, and warn when the vehicle
      is exactly full. Returns the view calls and the rating calls, in order.
    */
    method ServirParada(c: Colectivo, pos: int) returns (vistas: seq<Evento>, calificados: seq<Calificacion>)
      requires 0 <= pos < |c.linea.paradas|
      modifies c, c.linea.paradas[pos]
      ensures Servida(c, c.linea.paradas[pos], c.linea.mapaIndicesParadas, pos,
                      old(CargaDe(c, c.linea.paradas[pos])), CargaDe(c, c.linea.paradas[pos]), vistas, calificados)
    {
      var actual := c.linea.paradas[pos];
      ghost var abordo0, esperando0 := c.pasajeros, actual.pasajerosEsperando;
      ghost var ok := Abordable(c.linea.mapaIndicesParadas, pos, c, actual, quiere);
      vistas := [Llegada(c, actual)];
      var bajaron := c.BajarPasajerosEn(actual);
      ghost var quedan := c.pasajeros;
      var subieron;
      subieron, calificados := c.SubirPasajerosDesdeParada(actual, pos, maxCapacidad, quiere);
      AtenderParadaPorPartes(abordo0, esperando0, actual, ok, maxCapacidad, bajaron, quedan, subieron,
                             actual.pasajerosEsperando);
      ghost var paso := AtenderParada(abordo0, esperando0, actual, ok, maxCapacidad);
      vistas := vistas + [EventosPasajeros(bajaron, subieron), EstadoColectivo(c, |bajaron|, |subieron|)];
      c.RegistrarOcupacionTramo();
      if |c.pasajeros| == maxCapacidad {
        var esperando := ContarPasajerosConDestinoValido(c, actual);
        vistas := vistas + [ColectivoLleno(c, actual, esperando)];
        assert vistas == EventosDeParada(c, actual, paso, maxCapacidad, quiere);
      } else {
        assert vistas == EventosDeParada(c, actual, paso, maxCapacidad, quiere);
      }
    }

    /**
      The number of passengers waiting at `actual` who would want to board `c`
      (their destination is not checked); reads only.
    */
    method ContarPasajerosConDestinoValido(c: Colectivo, actual: Parada) returns (count: int)
      ensures count == |Filtro(actual.pasajerosEsperando, QuiereSubirA(quiere, c, actual))|
    {
      var esperando := actual.pasajerosEsperando;
      count := 0;
      for i := 0 to |esperando|
        invariant count == |Filtro(esperando[..i], QuiereSubirA(quiere, c, actual))|
      {
        var p := esperando[i];
        assert esperando[..i + 1] == esperando[..i] + [p];
        FiltroConcat(esperando[..i], [p], QuiereSubirA(quiere, c, actual));
        if quiere(p, c, actual) {
          count := count + 1;
        }
      }
      assert esperando[..|esperando|] == esperando;
    }

    /**
      Closes a lap: the lap count grows by one; while laps remain the vehicle
      goes back to position 0 and reports active, otherwise it stays at the
      end of its route and reports inactive.
    */
    method ProcesarFinDeRecorrido(c: Colectivo) returns (activo: bool)
      requires Valid() && c in colectivos && c in posiciones && c in vueltas
      requires vueltas[c] < maxVueltas && posiciones[c] == |c.linea.paradas|
      modifies this
      ensures Valid()
      ensures vueltas == old(vueltas)[c := old(vueltas[c]) + 1]
      ensures activo <==> old(vueltas[c]) + 1 < maxVueltas
      ensures posiciones == if activo then old(posiciones)[c := 0] else old(posiciones)
      ensures eventos == old(eventos) + [FinRecorrido(c)]
      ensures calificaciones == old(calificaciones)
      ensures Total() < old(Total())
    {
      ghost var p0, v0 := posiciones, vueltas;
      ghost var sig := Avanzar(EstadoDe(c), |c.linea.paradas|, maxVueltas);
      AvanzarConserva(EstadoDe(c), |c.linea.paradas|, maxVueltas);
      AvanzarDescuenta(EstadoDe(c), |c.linea.paradas|, maxVueltas);
      eventos := eventos + [FinRecorrido(c)];
      var vueltasActuales := vueltas[c] + 1;
      vueltas := vueltas[c := vueltasActuales];
      activo := vueltasActuales < maxVueltas;
      if activo {
        posiciones := posiciones[c := 0];
      } else {
        assert posiciones == p0[c := p0[c]];
      }
      ProgresoActualizado(colectivos, p0, v0, posiciones, vueltas, largos, maxVueltas, c, sig.0);
      SumaBaja(colectivos, p0, v0, posiciones, vueltas, largos, c, maxVueltas);
    }
  }
}
