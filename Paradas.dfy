/**
  Stops and passengers (src/domain/Parada.java, src/domain/Pasajero.java).
  A stop owns the queue of passengers waiting at it; a passenger is a value
  made of an id and a destination stop.
*/
module Paradas {
  import opened Seleccion

  /**
    A passenger: its id and the stop it travels to, the two fields of
    src/domain/Pasajero.java. No satisfaction rating is part of this record;
    the only rating-related behaviour is the call that asks for it (see
    Colectivos).
  */
  datatype Pasajero = Pasajero(id: int, destino: Parada)

  /** Whether a passenger travels to one of the given stops. */
  function DestinoEn(destinos: set<Parada>): Pasajero -> bool
  {
    (p: Pasajero) => p.destino in destinos
  }

  class Parada {
    const id: int
    const direccion: string
    /** The waiting queue, in arrival order. */
    var pasajerosEsperando: seq<Pasajero>

    constructor (id: int, direccion: string)
      ensures this.id == id && this.direccion == direccion
      ensures pasajerosEsperando == []
    {
      this.id := id;
      this.direccion := direccion;
      pasajerosEsperando := [];
    }

    /**
      Takes out of the queue, front to back, every passenger whose destination
      is in `destinosValidos`, stopping as soon as `espacioDisponible`
      passengers have been taken; returns them in queue order.
      The properties of the result (destinations, bound, permutation,
      greedy completeness, stopping point) are the lemmas of module Seleccion.
    */
    method SeleccionarPasajerosParaSubir(destinosValidos: set<Parada>, espacioDisponible: int)
      returns (seleccionados: seq<Pasajero>)
      modifies this`pasajerosEsperando
      ensures (seleccionados, pasajerosEsperando)
           == Seleccionar(old(pasajerosEsperando), DestinoEn(destinosValidos), espacioDisponible)
    {
      var ok := DestinoEn(destinosValidos);
      ghost var total := Seleccionar(pasajerosEsperando, ok, espacioDisponible);
      RecorridoInicio(pasajerosEsperando, ok, espacioDisponible);
      seleccionados := [];
      // `j` is the iterator's cursor: the passengers before it stay at the stop.
      var j := 0;
      while j < |pasajerosEsperando| && |seleccionados| < espacioDisponible
        invariant Recorrido(total, pasajerosEsperando, j, seleccionados, ok, espacioDisponible)
        decreases |pasajerosEsperando| - j
      {
        var p := pasajerosEsperando[j];
        if p.destino in destinosValidos {
          RecorridoToma(total, pasajerosEsperando, j, seleccionados, ok, espacioDisponible);
          seleccionados := seleccionados + [p];
          pasajerosEsperando := pasajerosEsperando[..j] + pasajerosEsperando[j + 1..];
        } else {
          RecorridoDeja(total, pasajerosEsperando, j, seleccionados, ok, espacioDisponible);
          j := j + 1;
        }
      }
      RecorridoFin(total, pasajerosEsperando, j, seleccionados, ok, espacioDisponible);
    }

    /** Appends a passenger at the end of the waiting queue. */
    method AgregarPasajero(p: Pasajero)
      modifies this
      ensures pasajerosEsperando == old(pasajerosEsperando) + [p]
    {
      pasajerosEsperando := pasajerosEsperando + [p];
    }
  }
}
