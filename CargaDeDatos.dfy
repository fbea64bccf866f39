/**
  The older record loader of src/util/CargaDeDatos.java. It reads the same
  files as src/io/Datos.java, with the per-line parsing written inline, and
  differs from it in two ways: every record of the line file gives a line,
  even one with only a code, and a stop field that is not an int aborts the
  whole load. Ids with no stop only print a warning (the id) on the error
  stream.
*/
module CargaDeDatos {
  import opened Seleccion
  import opened Texto
  import opened Paradas
  import opened Lineas
  import opened Datos

  // ---------------------------------------------------------------------------
  // Reading a sequence of items until the first failure
  // ---------------------------------------------------------------------------

  /** What one item contributes: possibly a value, the warnings it printed, and possibly a failure. */
  datatype Efecto<U> = Efecto(valor: Option<U>, avisos: seq<int>, falla: Option<Falla>)

  /** What a run of items gives: the values, every warning printed, and the failure that stopped it, if any. */
  datatype Acumulado<U> = Acumulado(valores: seq<U>, avisos: seq<int>, falla: Option<Falla>)

  /**
    The items are handled in order; the first failure stops the run, keeping
    what was gathered and printed before it.
  */
  function Acumular<T, U>(xs: seq<T>, f: T -> Efecto<U>): Acumulado<U>
  {
    if xs == [] then Acumulado([], [], None)
    else
      var antes := Acumular(xs[..|xs| - 1], f);
      if antes.falla.Some? then antes
      else
        var e := f(xs[|xs| - 1]);
        Acumulado(antes.valores + Obtenida(e.valor), antes.avisos + e.avisos, e.falla)
  }

  /** Handling one more item, when the run so far did not fail. */
  lemma AcumularUltimo<T, U>(xs: seq<T>, i: nat, f: T -> Efecto<U>)
    requires i < |xs| && Acumular(xs[..i], f).falla.None?
    ensures Acumular(xs[..i + 1], f) ==
      Acumulado(Acumular(xs[..i], f).valores + Obtenida(f(xs[i]).valor),
                Acumular(xs[..i], f).avisos + f(xs[i]).avisos,
                f(xs[i]).falla)
  {
    assert xs[..i + 1][..i] == xs[..i];
  }

  /** Once a prefix fails, nothing after it is handled. */
  lemma {:induction false} AcumularFallaPrefijo<T, U>(xs: seq<T>, k: nat, f: T -> Efecto<U>)
    requires k <= |xs| && Acumular(xs[..k], f).falla.Some?
    ensures Acumular(xs, f) == Acumular(xs[..k], f)
    decreases |xs| - k
  {
    if k < |xs| {
      assert xs[..k + 1][..k] == xs[..k];
      AcumularFallaPrefijo(xs, k + 1, f);
    } else {
      assert xs[..k] == xs;
    }
  }

  /**
    A run fails exactly when some item fails, and then with the failure of
    the first item that fails.
  */
  lemma {:induction false} AcumularFalla<T, U>(xs: seq<T>, f: T -> Efecto<U>)
    ensures Acumular(xs, f).falla.Some? <==> exists i :: 0 <= i < |xs| && f(xs[i]).falla.Some?
    ensures Acumular(xs, f).falla.Some? ==>
      exists i :: && 0 <= i < |xs| && f(xs[i]).falla == Acumular(xs, f).falla
                  && forall j :: 0 <= j < i ==> f(xs[j]).falla.None?
  {
    if xs != [] {
      var n := |xs| - 1;
      AcumularFalla(xs[..n], f);
      assert forall i :: 0 <= i < n ==> xs[..n][i] == xs[i];
    }
  }

  /**
    Without failures, a run gathers what each item yields and prints each
    item's warnings, in item order.
  */
  lemma {:induction false} AcumularSinFalla<T, U>(xs: seq<T>, f: T -> Efecto<U>, u: U)
    requires forall i :: 0 <= i < |xs| ==> f(xs[i]).falla.None?
    ensures Acumular(xs, f).falla.None?
    ensures u in Acumular(xs, f).valores <==> exists i :: 0 <= i < |xs| && f(xs[i]).valor == Some(u)
  {
    if xs != [] {
      var n := |xs| - 1;
      assert forall i :: 0 <= i < n ==> xs[..n][i] == xs[i];
      AcumularSinFalla(xs[..n], f, u);
    }
  }

  // ---------------------------------------------------------------------------
  // Stops
  // ---------------------------------------------------------------------------

  /**
    The body of cargarParadas's loop for one line, before the stop is built:
    a skipped line or one with fewer than two fields gives nothing, otherwise
    the trimmed first field must be an int id, and the trimmed second field is
    the address.
  */
  method LeerParada(lineaTexto: string) returns (r: Resultado<LecturaParada>)
    ensures r == ParsearParada(lineaTexto)
  {
    r := Ok(Omitida);
    if !Salteable(lineaTexto) {
      var partes := Dividir(lineaTexto, SEPARADOR);
      if |partes| >= 2 {
        match ParseInt(Trim(partes[0])) {
          case Error(f) => r := Error(f);
          case Ok(id) => r := Ok(Leida(id, Trim(partes[1])));
        }
      }
    }
  }

  /**
    cargarParadas: the same reading as the stop loader of Datos, written
    inline: skip blank and `#` lines, take the trimmed first field as an int
    id and the trimmed second as the address, later ids replacing earlier
    ones; a malformed id aborts the load.
  */
  method CargarParadas(textos: seq<string>) returns (r: Resultado<map<int, Parada>>)
    ensures r.Error? ==> Registros(LecturasDeParadas(textos)) == Error(r.falla)
    ensures r.Ok? ==>
      Registros(LecturasDeParadas(textos)).Ok? && Refleja(r.valor, Registros(LecturasDeParadas(textos)).valor)
    ensures r.Ok? ==> forall id | id in r.valor :: fresh(r.valor[id]) && r.valor[id].pasajerosEsperando == []
  {
    ghost var lecturas := LecturasDeParadas(textos);
    var paradasMap: map<int, Parada> := map[];
    for i := 0 to |textos|
      invariant Cargando(lecturas, i, paradasMap)
      invariant forall id | id in paradasMap :: fresh(paradasMap[id]) && paradasMap[id].pasajerosEsperando == []
    {
      var lectura := LeerParada(textos[i]);
      match lectura {
        case Error(f) =>
          CargandoFalla(lecturas, i, paradasMap);
          return Error(f);
        case Ok(Omitida) =>
          CargandoOmitida(lecturas, i, paradasMap);
        case Ok(Leida(id, direccion)) =>
          var parada := new Parada(id, direccion);
          CargandoLeida(lecturas, i, paradasMap, parada);
          paradasMap := paradasMap[id := parada];
      }
    }
    Cargado(lecturas, paradasMap);
    r := Ok(paradasMap);
  }

  // ---------------------------------------------------------------------------
  // Lines
  // ---------------------------------------------------------------------------

  /**
    One stop field of a line record: empty once trimmed, it is ignored; an
    int naming a known stop gives that stop; an unknown id prints a warning;
    anything else is a NumberFormatException.
  */
  function CampoEstricto(campo: string, paradas: map<int, Parada>): (r: Efecto<Parada>)
    ensures r.falla.Some? ==> r.falla == Some(NumeroInvalido(Trim(campo)))
    ensures |Obtenida(r.valor)| + |r.avisos| <= 1
  {
    var idStr := Trim(campo);
    if idStr == [] then Efecto(None, [], None)
    else
      match ParseInt(idStr)
      case Error(f) => Efecto(None, [], Some(f))
      case Ok(id) =>
        if id in paradas then Efecto(Some(paradas[id]), [], None) else Efecto(None, [id], None)
  }

  /** CampoEstricto as a reading of one field. */
  function Estricto(paradas: map<int, Parada>): string -> Efecto<Parada>
  {
    c => CampoEstricto(c, paradas)
  }

  /**
    What cargarLineas makes of one record: a skipped line gives nothing; a
    record that splits into no fields at all is an error (partes[0] does not
    exist); otherwise the trimmed first field is the code and the other
    fields are added as stops, unless one of them is not an int.
  */
  function LeerLinea(s: string, paradas: map<int, Parada>): (r: Efecto<LineaLeida>)
    ensures Salteable(s) ==> r == Efecto(None, [], None)
    ensures r.falla.None? && !Salteable(s) ==> r.valor.Some?
  {
    if Salteable(s) then Efecto(None, [], None)
    else
      var partes := Dividir(s, SEPARADOR);
      if partes == [] then Efecto(None, [], Some(SinCampos))
      else
        var campos := Acumular(partes[1..], Estricto(paradas));
        if campos.falla.Some? then Efecto(None, campos.avisos, campos.falla)
        else Efecto(Some(LineaLeida(Trim(partes[0]), Agregados(campos.valores))), campos.avisos, None)
  }

  /** LeerLinea as a reading of one text line. */
  function LectorEstricto(paradas: map<int, Parada>): string -> Efecto<LineaLeida>
  {
    s => LeerLinea(s, paradas)
  }

  /** The warnings Datos shows for ids that name no stop. */
  function NoEncontradas(ids: seq<int>): (r: seq<Advertencia>)
    ensures |r| == |ids|
    ensures forall k :: 0 <= k < |ids| ==> r[k] == ParadaNoEncontrada(ids[k])
  {
    seq(|ids|, k requires 0 <= k < |ids| => ParadaNoEncontrada(ids[k]))
  }

  /** On a field that is empty or an int, both loaders do the same. */
  lemma CampoCoincide(campo: string, paradas: map<int, Parada>)
    requires CampoEstricto(campo, paradas).falla.None?
    ensures Obtenida(CampoEstricto(campo, paradas).valor) == Campo(campo, paradas).0
    ensures NoEncontradas(CampoEstricto(campo, paradas).avisos) == Campo(campo, paradas).1
  {
  }

  /** Warnings about unknown ids, printed in two runs, are those of each run in order. */
  lemma NoEncontradasConcat(a: seq<int>, b: seq<int>)
    ensures NoEncontradas(a + b) == NoEncontradas(a) + NoEncontradas(b)
  {
  }

  /**
    On stop fields that are all ints (or empty), both loaders take the same
    stops, and warn about the same unknown ids in the same order.
  */
  lemma {:induction false} CamposCoinciden(campos: seq<string>, paradas: map<int, Parada>)
    requires Acumular(campos, Estricto(paradas)).falla.None?
    ensures Acumular(campos, Estricto(paradas)).valores == Juntar(CamposDe(campos, paradas)).0
    ensures NoEncontradas(Acumular(campos, Estricto(paradas)).avisos) == Juntar(CamposDe(campos, paradas)).1
  {
    if campos != [] {
      var n := |campos| - 1;
      assert campos[..n + 1] == campos;
      assert Acumular(campos[..n], Estricto(paradas)).falla.None?;
      AcumularUltimo(campos, n, Estricto(paradas));
      CamposCoinciden(campos[..n], paradas);
      CamposDeUltimo(campos, n, paradas);
      CampoCoincide(campos[n], paradas);
      NoEncontradasConcat(Acumular(campos[..n], Estricto(paradas)).avisos, CampoEstricto(campos[n], paradas).avisos);
    }
  }

  /**
    On a record with a code and at least one more field, none of which fails
    to parse, cargarLineas reads the same line as Datos does, and prints the
    same unknown ids that Datos warns about.
  */
  lemma LineaCoincide(s: string, paradas: map<int, Parada>)
    requires !Salteable(s) && |Dividir(s, SEPARADOR)| >= 2
    requires LeerLinea(s, paradas).falla.None?
    ensures LeerLinea(s, paradas).valor == LecturaDeLinea(s, paradas)
    ensures NoEncontradas(LeerLinea(s, paradas).avisos) == AdvertenciasDeLinea(s, paradas)
  {
    CamposCoinciden(Dividir(s, SEPARADOR)[1..], paradas);
  }

  /**
    A record holding only a line code gives an empty line here, while Datos
    gives nothing for it.
  */
  lemma SoloCodigo(codigo: string, paradas: map<int, Parada>)
    requires codigo != [] && Recortado(codigo) && SEPARADOR !in codigo && codigo[0] != COMENTARIO
    ensures LeerLinea(codigo, paradas) == Efecto(Some(LineaLeida(codigo, [])), [], None)
    ensures LecturaDeLinea(codigo, paradas).None?
  {
    TrimRecortado(codigo);
    TrozosSinSeparador(codigo, SEPARADOR);
    assert Dividir(codigo, SEPARADOR) == [codigo];
    assert Dividir(codigo, SEPARADOR)[1..] == [];
  }

  /** A code and one field, written with a `;` between them, make a record of those two fields. */
  lemma RegistroDeDos(codigo: string, campo: string)
    requires codigo != [] && SEPARADOR !in codigo && codigo[0] != COMENTARIO
    requires campo != [] && SEPARADOR !in campo
    ensures !Salteable(codigo + [SEPARADOR] + campo)
    ensures Dividir(codigo + [SEPARADOR] + campo, SEPARADOR) == [codigo, campo]
  {
    var s := codigo + [SEPARADOR] + campo;
    assert s[0] == codigo[0] && s[|codigo|] == SEPARADOR;
    NoSalteable(s, |codigo|);
    DosCampos(codigo, campo);
  }

  /** A single stop field that is not an int: cargarLineas fails on it, Datos warns about it. */
  lemma UnCampoNoNumerico(campo: string, paradas: map<int, Parada>)
    requires campo != [] && Recortado(campo) && ParseInt(campo).Error?
    ensures Acumular([campo], Estricto(paradas)) == Acumulado([], [], Some(NumeroInvalido(campo)))
    ensures Juntar(CamposDe([campo], paradas)) == ([], [ParadaNoValida(campo)])
  {
    TrimRecortado(campo);
    var campos := [campo];
    assert campos[..0] == [];
    assert CampoEstricto(campo, paradas) == Efecto(None, [], Some(NumeroInvalido(campo)));
    var rs := CamposDe(campos, paradas);
    assert rs == [([], [ParadaNoValida(campo)])];
    assert rs[..0] == [] && Juntar(rs[..0]) == ([], []);
    assert Juntar(rs) == (Juntar(rs[..0]).0 + rs[0].0, Juntar(rs[..0]).1 + rs[0].1);
    assert [] + [ParadaNoValida(campo)] == [ParadaNoValida(campo)];
  }

  /** A stop field that is not an int aborts the load here. */
  lemma CampoNoNumerico(codigo: string, campo: string, paradas: map<int, Parada>)
    requires codigo != [] && SEPARADOR !in codigo && codigo[0] != COMENTARIO
    requires campo != [] && Recortado(campo) && SEPARADOR !in campo && ParseInt(campo).Error?
    ensures LeerLinea(codigo + [SEPARADOR] + campo, paradas) == Efecto(None, [], Some(NumeroInvalido(campo)))
  {
    RegistroDeDos(codigo, campo);
    UnCampoNoNumerico(campo, paradas);
    assert Dividir(codigo + [SEPARADOR] + campo, SEPARADOR)[1..] == [campo];
  }

  /** Datos, on the same record, only warns about that field and keeps the line. */
  lemma CampoNoNumericoEnDatos(codigo: string, campo: string, paradas: map<int, Parada>)
    requires codigo != [] && Recortado(codigo) && SEPARADOR !in codigo && codigo[0] != COMENTARIO
    requires campo != [] && Recortado(campo) && SEPARADOR !in campo && ParseInt(campo).Error?
    ensures LecturaDeLinea(codigo + [SEPARADOR] + campo, paradas) == Some(LineaLeida(codigo, []))
    ensures AdvertenciasDeLinea(codigo + [SEPARADOR] + campo, paradas) == [ParadaNoValida(campo)]
  {
    RegistroDeDos(codigo, campo);
    TrimRecortado(codigo);
    UnCampoNoNumerico(campo, paradas);
    var partes := Dividir(codigo + [SEPARADOR] + campo, SEPARADOR);
    assert partes[1..] == [campo] && Trim(partes[0]) == codigo;
    assert Juntar(CamposDe(partes[1..], paradas)) == ([], [ParadaNoValida(campo)]);
    assert Agregados([]) == [];
  }

  /**
    One stop field in cargarLineas's inner loop: an empty field is ignored, a
    known id adds its stop to the line (once), an unknown id is printed, and a
    field that is not an int raises the failure.
  */
  method AgregarCampoEstricto(linea: Linea, campo: string, paradas: map<int, Parada>, ghost ofrecidas: seq<Parada>)
    returns (avisos: seq<int>, falla: Option<Falla>)
    requires linea.Valid() && linea.paradas == Agregados(ofrecidas)
    modifies linea
    ensures linea.Valid()
    ensures linea.paradas == Agregados(ofrecidas + Obtenida(CampoEstricto(campo, paradas).valor))
    ensures avisos == CampoEstricto(campo, paradas).avisos
    ensures falla == CampoEstricto(campo, paradas).falla
  {
    avisos, falla := [], None;
    AgregadosUno(ofrecidas, Obtenida(CampoEstricto(campo, paradas).valor));
    var idStr := Trim(campo);
    if idStr != [] {
      match ParseInt(idStr) {
        case Error(f) =>
          falla := Some(f);
        case Ok(idParada) =>
          if idParada in paradas {
            linea.AgregarParada(paradas[idParada]);
          } else {
            avisos := [idParada];
          }
      }
    }
  }

  /**
    cargarLineas's inner loop over the stop fields of one record: fields are
    handled in order until one is not an int.
  */
  method AgregarCamposEstrictos(linea: Linea, campos: seq<string>, paradas: map<int, Parada>)
    returns (avisos: seq<int>, falla: Option<Falla>)
    requires linea.Valid() && linea.paradas == []
    modifies linea
    ensures linea.Valid()
    ensures falla.None? ==> linea.paradas == Agregados(Acumular(campos, Estricto(paradas)).valores)
    ensures avisos == Acumular(campos, Estricto(paradas)).avisos
    ensures falla == Acumular(campos, Estricto(paradas)).falla
  {
    avisos, falla := [], None;
    for i := 0 to |campos|
      invariant linea.Valid()
      invariant Acumular(campos[..i], Estricto(paradas)).falla.None?
      invariant linea.paradas == Agregados(Acumular(campos[..i], Estricto(paradas)).valores)
      invariant avisos == Acumular(campos[..i], Estricto(paradas)).avisos
    {
      AcumularUltimo(campos, i, Estricto(paradas));
      var aviso, f := AgregarCampoEstricto(linea, campos[i], paradas, Acumular(campos[..i], Estricto(paradas)).valores);
      avisos := avisos + aviso;
      if f.Some? {
        AcumularFallaPrefijo(campos, i + 1, Estricto(paradas));
        return avisos, f;
      }
    }
    assert campos[..|campos|] == campos;
  }

  /**
    One pass of cargarLineas's loop: the line object for one record, the
    warnings printed for it, and the failure it raises, if any.
  */
  method LeerLineaTexto(s: string, paradas: map<int, Parada>)
    returns (linea: Linea?, avisos: seq<int>, falla: Option<Falla>)
    ensures linea == null <==> LeerLinea(s, paradas).valor.None?
    ensures linea != null ==>
      && fresh(linea) && linea.Valid()
      && linea.codigo == LeerLinea(s, paradas).valor.value.codigo
      && linea.paradas == LeerLinea(s, paradas).valor.value.paradas
    ensures avisos == LeerLinea(s, paradas).avisos
    ensures falla == LeerLinea(s, paradas).falla
  {
    linea, avisos, falla := null, [], None;
    if !Salteable(s) {
      var partes := Dividir(s, SEPARADOR);
      if partes == [] {
        falla := Some(SinCampos);
        assert LeerLinea(s, paradas) == Efecto(None, [], falla);
      } else {
        var nueva := new Linea(Trim(partes[0]));
        avisos, falla := AgregarCamposEstrictos(nueva, partes[1..], paradas);
        ghost var campos := Acumular(partes[1..], Estricto(paradas));
        if falla.None? {
          linea := nueva;
          assert LeerLinea(s, paradas) == Efecto(Some(LineaLeida(Trim(partes[0]), Agregados(campos.valores))), avisos, None);
        } else {
          assert LeerLinea(s, paradas) == Efecto(None, avisos, falla);
        }
      }
    }
  }

  /**
    cargarLineas: reads the records in order, keeping every line object; the
    first record that fails aborts the load, after the warnings printed
    until then.
  */
  method CargarLineas(textos: seq<string>, paradas: map<int, Parada>)
    returns (r: Resultado<seq<Linea>>, avisos: seq<int>)
    ensures avisos == Acumular(textos, LectorEstricto(paradas)).avisos
    ensures r.Error? <==> Acumular(textos, LectorEstricto(paradas)).falla.Some?
    ensures r.Error? ==> Some(r.falla) == Acumular(textos, LectorEstricto(paradas)).falla
    ensures r.Ok? ==>
      && Cargadas(r.valor, Acumular(textos, LectorEstricto(paradas)).valores)
      && Distintas(r.valor)
      && forall l | l in r.valor :: fresh(l)
  {
    var lineas: seq<Linea> := [];
    avisos := [];
    for i := 0 to |textos|
      invariant Acumular(textos[..i], LectorEstricto(paradas)).falla.None?
      invariant Cargadas(lineas, Acumular(textos[..i], LectorEstricto(paradas)).valores)
      invariant Distintas(lineas)
      invariant forall l | l in lineas :: fresh(l)
      invariant avisos == Acumular(textos[..i], LectorEstricto(paradas)).avisos
    {
      var linea, aviso, falla := LeerLineaTexto(textos[i], paradas);
      AcumularUltimo(textos, i, LectorEstricto(paradas));
      avisos := avisos + aviso;
      if falla.Some? {
        AcumularFallaPrefijo(textos, i + 1, LectorEstricto(paradas));
        return Error(falla.value), avisos;
      }
      assert linea != null ==> linea !in lineas;
      lineas := Guardar(lineas, linea, Acumular(textos[..i], LectorEstricto(paradas)).valores, LeerLinea(textos[i], paradas).valor);
    }
    assert textos[..|textos|] == textos;
    r := Ok(lineas);
  }
}
