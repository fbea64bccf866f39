/**
  Vehicles (src/domain/Colectivo.java): the passenger manifest of a bus, the
  alighting and boarding protocol at a stop, and the occupancy history.
*/
module Colectivos {
  import opened Seleccion
  import opened Paradas
  import opened Lineas

  /**
    Pasajero.quiereSubirA(colectivo, parada). The shown Pasajero has no such
    method, so its decision is a parameter of the model: a fixed predicate of
    the passenger, the vehicle and the stop.
  */
  type QuiereSubir = (Pasajero, Colectivo, Parada) -> bool

  /** One call `pasajero.calificarAlSubir(posicion, maxCapacidad)`. */
  datatype Calificacion = Calificacion(pasajero: Pasajero, posicion: int, maxCapacidad: int)

  /**
    The boarding test of a vehicle at a stop, over a snapshot of its line's
    index map: the destination lies further along the line and the passenger
    wants to board.
  */
  function Abordable(indices: map<Parada, int>, posicionActual: int, colectivo: Colectivo,
                     parada: Parada, quiere: QuiereSubir): Pasajero -> bool
  {
    (p: Pasajero) => IndiceFuturo(indices, p.destino, posicionActual) && quiere(p, colectivo, parada)
  }

  /**
    The rating calls made for the passengers `subieron`, boarded in this order
    onto a manifest that held `base` passengers: the k-th boarder is rated with
    slot `base + k`.
  */
  function Calificaciones(subieron: seq<Pasajero>, base: int, maxCapacidad: int): (r: seq<Calificacion>)
    ensures |r| == |subieron|
  {
    seq(|subieron|, k requires 0 <= k < |subieron| => Calificacion(subieron[k], base + k, maxCapacidad))
  }

  lemma CalificacionesAgregar(subieron: seq<Pasajero>, p: Pasajero, base: int, maxCapacidad: int)
    ensures Calificaciones(subieron + [p], base, maxCapacidad)
         == Calificaciones(subieron, base, maxCapacidad) + [Calificacion(p, base + |subieron|, maxCapacidad)]
  {
  }

  /**
    Boarding `subieron` onto a manifest `abordo`: the k-th rating call names
    the k-th boarder, and its slot is where that boarder stands in the new
    manifest, past everyone who was already on board; distinct boarders get
    distinct slots.
  */
  lemma CalificacionesPosicion(abordo: seq<Pasajero>, subieron: seq<Pasajero>, maxCapacidad: int)
    ensures forall k :: 0 <= k < |subieron| ==>
      var r := Calificaciones(subieron, |abordo|, maxCapacidad)[k];
      && r.pasajero == subieron[k] && r.maxCapacidad == maxCapacidad
      && |abordo| <= r.posicion < |abordo + subieron|
      && (abordo + subieron)[r.posicion] == r.pasajero
    ensures forall k, j :: 0 <= k < j < |subieron| ==>
      Calificaciones(subieron, |abordo|, maxCapacidad)[k].posicion
        < Calificaciones(subieron, |abordo|, maxCapacidad)[j].posicion
  {
  }

  /** Pasajero.quiereSubirA for a fixed vehicle and stop. */
  function QuiereSubirA(quiere: QuiereSubir, colectivo: Colectivo, parada: Parada): Pasajero -> bool
  {
    (p: Pasajero) => quiere(p, colectivo, parada)
  }

  /** Whether a passenger gets off at `parada`. */
  function BajaEn(parada: Parada): Pasajero -> bool
  {
    (p: Pasajero) => p.destino == parada
  }

  class Colectivo {
    const id: int
    const linea: Linea
    /** The passengers on board, in boarding order. */
    var pasajeros: seq<Pasajero>
    /** One entry per stop served: how many passengers were on board on leaving it. */
    var ocupacionPorTramo: seq<int>

    constructor (id: int, linea: Linea)
      ensures this.id == id && this.linea == linea
      ensures pasajeros == [] && ocupacionPorTramo == []
    {
      this.id := id;
      this.linea := linea;
      pasajeros := [];
      ocupacionPorTramo := [];
    }

    /**
      Boards passengers from the waiting queue of `parada`: at most
      `maxCapacidad - |pasajeros|` of them, scanning the queue front to back and
      taking each one for whom PuedeSubir holds. Each boarder is rated once,
      with its zero-based slot in the resulting manifest.
    */
    method SubirPasajerosDesdeParada(parada: Parada, posicionActual: int, maxCapacidad: int,
                                     quiere: QuiereSubir)
      returns (subieron: seq<Pasajero>, calificaciones: seq<Calificacion>)
      modifies this`pasajeros, parada`pasajerosEsperando
      ensures (subieron, parada.pasajerosEsperando)
           == Seleccionar(old(parada.pasajerosEsperando),
                          Abordable(linea.mapaIndicesParadas, posicionActual, this, parada, quiere),
                          maxCapacidad - |old(pasajeros)|)
      ensures pasajeros == old(pasajeros) + subieron
      ensures calificaciones == Calificaciones(subieron, |old(pasajeros)|, maxCapacidad)
    {
      var espacioDisponible := maxCapacidad - |pasajeros|;
      ghost var ok := Abordable(linea.mapaIndicesParadas, posicionActual, this, parada, quiere);
      ghost var total := Seleccionar(parada.pasajerosEsperando, ok, espacioDisponible);
      RecorridoInicio(parada.pasajerosEsperando, ok, espacioDisponible);
      subieron := [];
      calificaciones := [];
      var j := 0;
      while j < |parada.pasajerosEsperando| && |subieron| < espacioDisponible
        invariant Recorrido(total, parada.pasajerosEsperando, j, subieron, ok, espacioDisponible)
        invariant pasajeros == old(pasajeros)
        invariant calificaciones == Calificaciones(subieron, |pasajeros|, maxCapacidad)
        decreases |parada.pasajerosEsperando| - j
      {
        var p := parada.pasajerosEsperando[j];
        if PuedeSubir(p, parada, posicionActual, quiere) {
          RecorridoToma(total, parada.pasajerosEsperando, j, subieron, ok, espacioDisponible);
          CalificacionesAgregar(subieron, p, |pasajeros|, maxCapacidad);
          subieron := subieron + [p];
          parada.pasajerosEsperando := parada.pasajerosEsperando[..j] + parada.pasajerosEsperando[j + 1..];
          calificaciones := calificaciones + [Calificacion(p, |pasajeros| + |subieron| - 1, maxCapacidad)];
        } else {
          RecorridoDeja(total, parada.pasajerosEsperando, j, subieron, ok, espacioDisponible);
          j := j + 1;
        }
      }
      RecorridoFin(total, parada.pasajerosEsperando, j, subieron, ok, espacioDisponible);
      pasajeros := pasajeros + subieron;
    }

    /**
      Boarding as the revision of this class called by src/util/Simulador.java
      does it: the stop selects, among its waiting passengers, those travelling
      to one of `destinosValidos`, up to the free space, and they are appended
      to the manifest. That revision rates nobody.
    */
    method SubirPasajerosHacia(parada: Parada, destinosValidos: set<Parada>, maxCapacidad: int)
      returns (subieron: seq<Pasajero>)
      modifies this`pasajeros, parada`pasajerosEsperando
      ensures (subieron, parada.pasajerosEsperando)
           == Seleccionar(old(parada.pasajerosEsperando), DestinoEn(destinosValidos),
                          maxCapacidad - |old(pasajeros)|)
      ensures pasajeros == old(pasajeros) + subieron
    {
      subieron := parada.SeleccionarPasajerosParaSubir(destinosValidos, maxCapacidad - |pasajeros|);
      pasajeros := pasajeros + subieron;
    }

    /** A passenger may board if its destination is ahead on the line and it wants to. */
    function PuedeSubir(pasajero: Pasajero, parada: Parada, posicionActual: int,
                        quiere: QuiereSubir): (r: bool)
      reads linea
      ensures linea.Valid() ==>
        (r <==> && (exists i :: 0 <= i < |linea.paradas| && posicionActual < i
                                && linea.paradas[i] == pasajero.destino)
                && quiere(pasajero, this, parada))
      ensures r == Abordable(linea.mapaIndicesParadas, posicionActual, this, parada, quiere)(pasajero)
    {
      DestinoEstaEnRecorridoFuturo(pasajero.destino, posicionActual)
      && quiere(pasajero, this, parada)
    }

    /** Whether `destino` lies on the line after position `posicionActual`. */
    function DestinoEstaEnRecorridoFuturo(destino: Parada, posicionActual: int): (r: bool)
      reads linea
      ensures linea.Valid() ==>
        (r <==> exists i :: 0 <= i < |linea.paradas| && posicionActual < i && linea.paradas[i] == destino)
    {
      IndiceFuturoEnLista(linea.paradas, linea.mapaIndicesParadas, destino, posicionActual);
      IndiceFuturo(linea.mapaIndicesParadas, destino, posicionActual)
    }

    /**
      Takes off the manifest, and returns in on-board order, every passenger
      whose destination is `parada`; the others stay on board in order.
    */
    method BajarPasajerosEn(parada: Parada) returns (bajan: seq<Pasajero>)
      modifies this`pasajeros
      ensures bajan == Filtro(old(pasajeros), BajaEn(parada))
      ensures pasajeros == Filtro(old(pasajeros), No(BajaEn(parada)))
    {
      ghost var f := BajaEn(parada);
      ghost var original := pasajeros;
      BarridoInicio(original, f);
      bajan := [];
      // `j` is the iterator's cursor: the passengers before it stay on board.
      var j := 0;
      while j < |pasajeros|
        invariant Barrido(original, pasajeros, j, bajan, f)
        decreases |pasajeros| - j
      {
        var p := pasajeros[j];
        if p.destino == parada {
          BarridoToma(original, pasajeros, j, bajan, f);
          bajan := bajan + [p];
          pasajeros := pasajeros[..j] + pasajeros[j + 1..];
        } else {
          BarridoDeja(original, pasajeros, j, bajan, f);
          j := j + 1;
        }
      }
      BarridoFin(original, pasajeros, bajan, f);
    }

    /** Appends the current number of passengers on board to the occupancy history. */
    method RegistrarOcupacionTramo()
      modifies this`ocupacionPorTramo
      ensures ocupacionPorTramo == old(ocupacionPorTramo) + [|pasajeros|]
    {
      ocupacionPorTramo := ocupacionPorTramo + [|pasajeros|];
    }
  }

  /**
    Alighting twice at the same stop with nothing in between: the second call
    finds nobody left to get off.
  */
  lemma BajarDosVeces(abordo: seq<Pasajero>, parada: Parada)
    ensures Filtro(Filtro(abordo, No(BajaEn(parada))), BajaEn(parada)) == []
  {
    FiltroDeRechazados(abordo, BajaEn(parada));
  }

  /**
    The manifest after alighting at `parada` holds exactly the passengers not
    travelling to it, and those who got off together with those who stayed
    are exactly the passengers who were on board.
  */
  lemma BajarParticiona(abordo: seq<Pasajero>, parada: Parada)
    ensures forall i :: 0 <= i < |Filtro(abordo, No(BajaEn(parada)))| ==>
      Filtro(abordo, No(BajaEn(parada)))[i].destino != parada
    ensures forall i :: 0 <= i < |Filtro(abordo, BajaEn(parada))| ==>
      Filtro(abordo, BajaEn(parada))[i].destino == parada
    ensures multiset(Filtro(abordo, BajaEn(parada))) + multiset(Filtro(abordo, No(BajaEn(parada))))
         == multiset(abordo)
  {
    FiltroParticion(abordo, BajaEn(parada));
    forall i | 0 <= i < |Filtro(abordo, No(BajaEn(parada)))|
      ensures Filtro(abordo, No(BajaEn(parada)))[i].destino != parada
    {
      assert No(BajaEn(parada))(Filtro(abordo, No(BajaEn(parada)))[i]);
    }
  }

  /** What serving one stop does to a vehicle's manifest and to the stop's queue. */
  datatype Paso = Paso(bajaron: seq<Pasajero>, subieron: seq<Pasajero>,
                       abordo: seq<Pasajero>, esperando: seq<Pasajero>)

  /**
    A vehicle carrying `abordo` serves `actual`, whose queue is `esperando`:
    first everyone travelling to `actual` gets off, then the queue is scanned
    greedily for passengers satisfying `ok`, up to the space left.
  */
  function AtenderParada(abordo: seq<Pasajero>, esperando: seq<Pasajero>, actual: Parada,
                         ok: Pasajero -> bool, maxCapacidad: int): Paso
  {
    var quedan := Filtro(abordo, No(BajaEn(actual)));
    var sel := Seleccionar(esperando, ok, maxCapacidad - |quedan|);
    Paso(Filtro(abordo, BajaEn(actual)), sel.0, quedan + sel.0, sel.1)
  }

  /** AtenderParada composed from its two halves: alighting, then boarding. */
  lemma AtenderParadaPorPartes(abordo: seq<Pasajero>, esperando: seq<Pasajero>, actual: Parada,
                               ok: Pasajero -> bool, maxCapacidad: int, bajaron: seq<Pasajero>,
                               quedan: seq<Pasajero>, subieron: seq<Pasajero>, quedaron: seq<Pasajero>)
    requires bajaron == Filtro(abordo, BajaEn(actual)) && quedan == Filtro(abordo, No(BajaEn(actual)))
    requires (subieron, quedaron) == Seleccionar(esperando, ok, maxCapacidad - |quedan|)
    ensures AtenderParada(abordo, esperando, actual, ok, maxCapacidad)
         == Paso(bajaron, subieron, quedan + subieron, quedaron)
  {
  }

  /**
    Serving a stop never overfills a vehicle that was within capacity, and a
    vehicle left full after alighting takes nobody on.
  */
  lemma AtenderParadaCapacidad(abordo: seq<Pasajero>, esperando: seq<Pasajero>, actual: Parada,
                               ok: Pasajero -> bool, maxCapacidad: int)
    ensures |abordo| <= maxCapacidad ==>
      |AtenderParada(abordo, esperando, actual, ok, maxCapacidad).abordo| <= maxCapacidad
    ensures |Filtro(abordo, No(BajaEn(actual)))| >= maxCapacidad ==>
      AtenderParada(abordo, esperando, actual, ok, maxCapacidad).subieron == []
  {
  }

  /**
    Nobody is lost or created at a stop: those who got off, those on board and
    those still waiting are, together, the passengers on board and waiting
    before.
  */
  lemma AtenderParadaConserva(abordo: seq<Pasajero>, esperando: seq<Pasajero>, actual: Parada,
                              ok: Pasajero -> bool, maxCapacidad: int)
    ensures var r := AtenderParada(abordo, esperando, actual, ok, maxCapacidad);
      multiset(r.bajaron) + multiset(r.abordo) + multiset(r.esperando)
        == multiset(abordo) + multiset(esperando)
  {
    FiltroParticion(abordo, BajaEn(actual));
    SeleccionPermutacion(esperando, ok, maxCapacidad - |Filtro(abordo, No(BajaEn(actual)))|);
  }

  /**
    A vehicle leaves the stop at position `pos` of a consistent line with
    nobody on board who travels to that stop: those travelling there got off,
    and the boarders travel to a stop further along the line.
  */
  lemma AtenderParadaNadieBajaAqui(abordo: seq<Pasajero>, esperando: seq<Pasajero>, linea: seq<Parada>,
                                   indices: map<Parada, int>, pos: int, c: Colectivo, quiere: QuiereSubir,
                                   maxCapacidad: int)
    requires IndicesCorrectos(linea, indices) && 0 <= pos < |linea|
    ensures var r := AtenderParada(abordo, esperando, linea[pos],
                                   Abordable(indices, pos, c, linea[pos], quiere), maxCapacidad);
      forall i :: 0 <= i < |r.abordo| ==> r.abordo[i].destino != linea[pos]
  {
    var actual := linea[pos];
    var ok := Abordable(indices, pos, c, actual, quiere);
    var quedan := Filtro(abordo, No(BajaEn(actual)));
    var r := AtenderParada(abordo, esperando, actual, ok, maxCapacidad);
    FiltroCumple(abordo, No(BajaEn(actual)));
    SeleccionCumple(esperando, ok, maxCapacidad - |quedan|);
    forall i | 0 <= i < |r.abordo|
      ensures r.abordo[i].destino != actual
    {
      if i < |quedan| {
        assert r.abordo[i] == quedan[i];
        assert No(BajaEn(actual))(quedan[i]);
      } else {
        var p := r.subieron[i - |quedan|];
        assert r.abordo[i] == p;
        assert ok(p);
        assert IndiceFuturo(indices, p.destino, pos);
        assert indices[actual] == pos;
      }
    }
  }
}
