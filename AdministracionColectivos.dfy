/**
  The vehicle factory (src/util/AdministracionColectivos.java, class
  Colectivos): one new vehicle per line, numbered consecutively from 0.
*/
module AdministracionColectivos {
  import opened Lineas
  import opened Colectivos

  /** No vehicle occurs twice in the list. */
  ghost predicate Distintos(cs: seq<Colectivo>)
  {
    forall i, j :: 0 <= i < j < |cs| ==> cs[i] != cs[j]
  }

  /**
    Builds one empty vehicle per line, in line order; the vehicle at index `i`
    has id `i` and runs `lineas[i]`. The lines themselves are not touched.
  */
  method GenerarColectivos(lineas: seq<Linea>) returns (colectivos: seq<Colectivo>)
    ensures |colectivos| == |lineas|
    ensures forall i :: 0 <= i < |colectivos| ==>
      && colectivos[i].id == i && colectivos[i].linea == lineas[i]
      && fresh(colectivos[i])
      && colectivos[i].pasajeros == [] && colectivos[i].ocupacionPorTramo == []
    ensures Distintos(colectivos)
  {
    colectivos := [];
    var id := 0;
    for k := 0 to |lineas|
      invariant id == k == |colectivos|
      invariant forall i :: 0 <= i < |colectivos| ==>
        && colectivos[i].id == i && colectivos[i].linea == lineas[i]
        && fresh(colectivos[i])
        && colectivos[i].pasajeros == [] && colectivos[i].ocupacionPorTramo == []
      invariant Distintos(colectivos)
    {
      var colectivo := new Colectivo(id, lineas[k]);
      id := id + 1;
      colectivos := colectivos + [colectivo];
    }
  }
}
