/**
  The record loader of src/io/Datos.java. Each file is given as the sequence
  of its lines. A stop record is `id;direccion[;...]`; a line record is
  `codigo;id;id;...`. Blank lines and lines starting with `#` are skipped.
  A malformed stop id aborts the stop load (the NumberFormatException is not
  caught); in a line record a malformed or unknown stop id only produces a
  warning.
*/
module Datos {
  import opened Seleccion
  import opened Texto
  import opened Paradas
  import opened Lineas

  const SEPARADOR: char := ';'
  const COMENTARIO: char := '#'

  /**
    A record line that yields nothing: blank once trimmed, or starting with
    `#` as it stands (the comment test is made on the untrimmed line).
  */
  predicate Salteable(s: string)
  {
    Trim(s) == [] || (s != [] && s[0] == COMENTARIO)
  }

  // ---------------------------------------------------------------------------
  // Stops
  // ---------------------------------------------------------------------------

  /** What parsearParada makes of a line: nothing (null), or a stop's id and address. */
  datatype LecturaParada = Omitida | Leida(id: int, direccion: string)

  /**
    parsearParada: a line with at least two `;` fields gives the stop whose id
    is the first field, trimmed and read as an int, and whose address is the
    second field, trimmed; a line with fewer fields gives nothing. A first
    field that is not an int is an error.
  */
  function ParsearParada(s: string): (r: Resultado<LecturaParada>)
    ensures Salteable(s) ==> r == Ok(Omitida)
    ensures r.Ok? && r.valor.Leida? ==> MIN_INT <= r.valor.id <= MAX_INT && Recortado(r.valor.direccion)
  {
    if Salteable(s) then Ok(Omitida)
    else
      var partes := Dividir(s, SEPARADOR);
      if |partes| >= 2 then
        match ParseInt(Trim(partes[0]))
        case Ok(id) => Ok(Leida(id, Trim(partes[1])))
        case Error(f) => Error(f)
      else Ok(Omitida)
  }

  /** Two non-empty fields without `;`, written with a `;` between them, split back into those two. */
  lemma DosCampos(a: string, b: string)
    requires a != [] && b != [] && SEPARADOR !in a && SEPARADOR !in b
    ensures Dividir(a + [SEPARADOR] + b, SEPARADOR) == [a, b]
  {
    assert Unir([a, b], SEPARADOR) == a + [SEPARADOR] + b;
    DividirUnir([a, b], SEPARADOR);
  }

  /** A line holding a `;` and not starting with `#` is a record. */
  lemma NoSalteable(s: string, k: nat)
    requires k < |s| && s[k] == SEPARADOR && s[0] != COMENTARIO
    ensures !Salteable(s)
  {
    TrimVacio(s);
    assert !Blanco(s[k]);
  }

  /**
    Writing a stop as `id;direccion` and parsing it back gives the stop, for
    every 32-bit id and every non-empty address without `;` and without
    blanks at either end.
  */
  lemma ParsearParadaEscrita(id: int, direccion: string)
    requires MIN_INT <= id <= MAX_INT
    requires direccion != [] && Recortado(direccion) && SEPARADOR !in direccion
    ensures ParsearParada(Decimal(id) + [SEPARADOR] + direccion) == Ok(Leida(id, direccion))
  {
    var d := Decimal(id);
    var s := d + [SEPARADOR] + direccion;
    DecimalSinSeparador(id);
    ParseIntDecimal(id);
    assert d != [] && s[0] == d[0] && d[0] != COMENTARIO;
    NoSalteable(s, |d|);
    DosCampos(d, direccion);
    TrimRecortado(d);
    TrimRecortado(direccion);
  }

  /** A stop record `blancos` + `id` + `;` + `c` splits into an untrimmed id field and `c`. */
  lemma RegistroIndentado(blancos: string, id: string, c: string)
    requires blancos != [] && TodoBlanco(blancos)
    requires id != [] && Recortado(id) && SEPARADOR !in id
    requires c != [] && SEPARADOR !in c
    ensures !Salteable(blancos + id + [SEPARADOR] + c)
    ensures Dividir(blancos + id + [SEPARADOR] + c, SEPARADOR) == [blancos + id, c]
    ensures Trim(blancos + id) == id
  {
    var campo := blancos + id;
    var s := campo + [SEPARADOR] + c;
    assert s[0] == blancos[0] && Blanco(s[0]);
    assert !Blanco(s[|campo|]);
    TrimVacio(s);
    assert SEPARADOR !in campo;
    DosCampos(campo, c);
    TrimDeshaceRelleno(blancos, id, []);
    assert blancos + id + [] == campo;
  }

  /**
    The comment test is made before trimming: a stop record `#a;c` is
    skipped, while the same record indented by blanks is read, and its id
    `#a` is not a number.
  */
  lemma ComentarioSinRecortar(blancos: string, a: string, c: string)
    requires blancos != [] && TodoBlanco(blancos)
    requires Recortado([COMENTARIO] + a) && SEPARADOR !in a
    requires c != [] && SEPARADOR !in c
    ensures ParsearParada([COMENTARIO] + a + [SEPARADOR] + c) == Ok(Omitida)
    ensures ParsearParada(blancos + [COMENTARIO] + a + [SEPARADOR] + c) == Error(NumeroInvalido([COMENTARIO] + a))
  {
    var id := [COMENTARIO] + a;
    assert ([COMENTARIO] + a + [SEPARADOR] + c)[0] == COMENTARIO;
    assert blancos + [COMENTARIO] + a + [SEPARADOR] + c == blancos + id + [SEPARADOR] + c;
    RegistroIndentado(blancos, id, c);
    ParseIntRechaza(id);
  }

  /** The reading of every line of the stop file, in order. */
  function LecturasDeParadas(textos: seq<string>): seq<Resultado<LecturaParada>>
  {
    seq(|textos|, i requires 0 <= i < |textos| => ParsearParada(textos[i]))
  }

  /** The reading `l` defines a stop with id `id`. */
  predicate DefineId(l: Resultado<LecturaParada>, id: int)
  {
    l.Ok? && l.valor.Leida? && l.valor.id == id
  }

  /**
    The addresses cargarParadas collects, by stop id, from the readings of its
    lines: each stop read puts its id into the map, a later one replacing an
    earlier one; the first reading that failed stops the load.
  */
  function Registros(lecturas: seq<Resultado<LecturaParada>>): Resultado<map<int, string>>
  {
    if lecturas == [] then Ok(map[])
    else
      match Registros(lecturas[..|lecturas| - 1])
      case Error(f) => Error(f)
      case Ok(m) =>
        match lecturas[|lecturas| - 1]
        case Error(f) => Error(f)
        case Ok(Omitida) => Ok(m)
        case Ok(Leida(id, direccion)) => Ok(m[id := direccion])
  }

  /** One more line, read after a prefix of the file that loaded. */
  lemma RegistrosUltimo(lecturas: seq<Resultado<LecturaParada>>, i: nat)
    requires i < |lecturas| && Registros(lecturas[..i]).Ok?
    ensures lecturas[i].Error? ==> Registros(lecturas[..i + 1]) == Error(lecturas[i].falla)
    ensures lecturas[i] == Ok(Omitida) ==> Registros(lecturas[..i + 1]) == Registros(lecturas[..i])
    ensures lecturas[i].Ok? && lecturas[i].valor.Leida? ==>
      Registros(lecturas[..i + 1]) ==
        Ok(Registros(lecturas[..i]).valor[lecturas[i].valor.id := lecturas[i].valor.direccion])
  {
    assert lecturas[..i + 1][..i] == lecturas[..i];
  }

  /** The load fails exactly when some line fails, and then with the first such failure. */
  lemma {:induction false} RegistrosFalla(lecturas: seq<Resultado<LecturaParada>>)
    ensures Registros(lecturas).Error? <==> exists i :: 0 <= i < |lecturas| && lecturas[i].Error?
    ensures Registros(lecturas).Error? ==>
      exists i :: && 0 <= i < |lecturas| && lecturas[i] == Error(Registros(lecturas).falla)
                  && forall j :: 0 <= j < i ==> lecturas[j].Ok?
  {
    if lecturas != [] {
      var n := |lecturas| - 1;
      RegistrosFalla(lecturas[..n]);
      assert forall i :: 0 <= i < n ==> lecturas[..n][i] == lecturas[i];
    }
  }

  /** Once a prefix of the file fails, the whole load fails the same way. */
  lemma {:induction false} RegistrosFallaPrefijo(lecturas: seq<Resultado<LecturaParada>>, k: nat)
    requires k <= |lecturas| && Registros(lecturas[..k]).Error?
    ensures Registros(lecturas) == Registros(lecturas[..k])
    decreases |lecturas| - k
  {
    if k < |lecturas| {
      assert lecturas[..k + 1][..k] == lecturas[..k];
      RegistrosFallaPrefijo(lecturas, k + 1);
    } else {
      assert lecturas[..k] == lecturas;
    }
  }

  /**
    A successful load holds exactly the ids that some record defines, and each
    id carries the address of the last record that defines it.
  */
  lemma {:induction false} RegistrosUltimoGana(lecturas: seq<Resultado<LecturaParada>>, id: int)
    requires Registros(lecturas).Ok?
    ensures id in Registros(lecturas).valor <==> exists i :: 0 <= i < |lecturas| && DefineId(lecturas[i], id)
    ensures forall i :: 0 <= i < |lecturas| && DefineId(lecturas[i], id) &&
                        (forall j :: i < j < |lecturas| ==> !DefineId(lecturas[j], id)) ==>
              Registros(lecturas).valor[id] == lecturas[i].valor.direccion
  {
    if lecturas != [] {
      var n := |lecturas| - 1;
      RegistrosUltimoGana(lecturas[..n], id);
      assert forall i :: 0 <= i < n ==> lecturas[..n][i] == lecturas[i];
    }
  }

  /** `m` holds, for each id of `direcciones`, a stop with that id and address. */
  ghost predicate Refleja(m: map<int, Parada>, direcciones: map<int, string>)
  {
    && m.Keys == direcciones.Keys
    && forall id | id in m :: m[id].id == id && m[id].direccion == direcciones[id]
  }

  /** After the first `i` readings the load goes on, and `m` holds the stops registered so far. */
  ghost predicate Cargando(lecturas: seq<Resultado<LecturaParada>>, i: int, m: map<int, Parada>)
  {
    && 0 <= i <= |lecturas|
    && Registros(lecturas[..i]).Ok?
    && Refleja(m, Registros(lecturas[..i]).valor)
  }

  /** A line the loader skips registers nothing. */
  lemma CargandoOmitida(lecturas: seq<Resultado<LecturaParada>>, i: int, m: map<int, Parada>)
    requires Cargando(lecturas, i, m) && i < |lecturas| && lecturas[i] == Ok(Omitida)
    ensures Cargando(lecturas, i + 1, m)
  {
    RegistrosUltimo(lecturas, i);
  }

  /** A stop read from a line is registered under its id, replacing any earlier one. */
  lemma CargandoLeida(lecturas: seq<Resultado<LecturaParada>>, i: int, m: map<int, Parada>, p: Parada)
    requires Cargando(lecturas, i, m) && i < |lecturas| && lecturas[i] == Ok(Leida(p.id, p.direccion))
    ensures Cargando(lecturas, i + 1, m[p.id := p])
  {
    RegistrosUltimo(lecturas, i);
  }

  /** A line that fails to read makes the whole load fail with its failure. */
  lemma CargandoFalla(lecturas: seq<Resultado<LecturaParada>>, i: int, m: map<int, Parada>)
    requires Cargando(lecturas, i, m) && i < |lecturas| && lecturas[i].Error?
    ensures Registros(lecturas) == Error(lecturas[i].falla)
  {
    RegistrosUltimo(lecturas, i);
    RegistrosFallaPrefijo(lecturas, i + 1);
  }

  /** Once every line is read, the map holds what the load registers. */
  lemma Cargado(lecturas: seq<Resultado<LecturaParada>>, m: map<int, Parada>)
    requires Cargando(lecturas, |lecturas|, m)
    ensures Registros(lecturas).Ok? && Refleja(m, Registros(lecturas).valor)
  {
    assert lecturas[..|lecturas|] == lecturas;
  }

  /**
    cargarParadas: reads the stop records in order and fills a map from id to
    a new stop with an empty queue; a later record with the same id replaces
    the earlier one. A malformed id aborts the load.
  */
  method CargarParadas(textos: seq<string>) returns (r: Resultado<map<int, Parada>>)
    ensures r.Error? ==> Registros(LecturasDeParadas(textos)) == Error(r.falla)
    ensures r.Ok? ==>
      Registros(LecturasDeParadas(textos)).Ok? && Refleja(r.valor, Registros(LecturasDeParadas(textos)).valor)
    ensures r.Ok? ==> forall id | id in r.valor :: fresh(r.valor[id]) && r.valor[id].pasajerosEsperando == []
  {
    ghost var lecturas := LecturasDeParadas(textos);
    var paradasMap: map<int, Parada> := map[];
    for i := 0 to |textos|
      invariant Cargando(lecturas, i, paradasMap)
      invariant forall id | id in paradasMap :: fresh(paradasMap[id]) && paradasMap[id].pasajerosEsperando == []
    {
      var lectura := ParsearParada(textos[i]);
      match lectura {
        case Error(f) =>
          CargandoFalla(lecturas, i, paradasMap);
          return Error(f);
        case Ok(Omitida) =>
          CargandoOmitida(lecturas, i, paradasMap);
        case Ok(Leida(id, direccion)) =>
          var parada := new Parada(id, direccion);
          CargandoLeida(lecturas, i, paradasMap, parada);
          paradasMap := paradasMap[id := parada];
      }
    }
    Cargado(lecturas, paradasMap);
    r := Ok(paradasMap);
  }

  // ---------------------------------------------------------------------------
  // Lines
  // ---------------------------------------------------------------------------

  /** The warnings parsearLinea shows through the view. */
  datatype Advertencia = ParadaNoEncontrada(id: int) | ParadaNoValida(texto: string)

  /**
    One stop field of a line record: empty once trimmed, it is ignored; an
    int that names a known stop gives that stop; an unknown id or a field that
    is not an int gives a warning.
  */
  function Campo(campo: string, paradas: map<int, Parada>): (r: (seq<Parada>, seq<Advertencia>))
    ensures |r.0| + |r.1| <= 1
    ensures Trim(campo) == [] ==> r == ([], [])
  {
    var idStr := Trim(campo);
    if idStr == [] then ([], [])
    else
      match ParseInt(idStr)
      case Error(_) => ([], [ParadaNoValida(idStr)])
      case Ok(id) => if id in paradas then ([paradas[id]], []) else ([], [ParadaNoEncontrada(id)])
  }

  /** Whether field `campo` names stop `p`: it trims to an int that the map sends to `p`. */
  predicate Nombra(campo: string, paradas: map<int, Parada>, p: Parada)
  {
    ParseInt(Trim(campo)).Ok? && ParseInt(Trim(campo)).valor in paradas && paradas[ParseInt(Trim(campo)).valor] == p
  }

  /** A field gives stop `p` exactly when it names it. */
  lemma CampoParada(campo: string, paradas: map<int, Parada>, p: Parada)
    ensures p in Campo(campo, paradas).0 <==> Nombra(campo, paradas, p)
  {
    if ParseInt(Trim(campo)).Ok? {
      assert Trim(campo) != [];
    }
  }

  /** The result of each field of a run of fields, in order. */
  function CamposDe(campos: seq<string>, paradas: map<int, Parada>): seq<(seq<Parada>, seq<Advertencia>)>
  {
    seq(|campos|, k requires 0 <= k < |campos| => Campo(campos[k], paradas))
  }

  /** The stops and the warnings of a run of fields, each field's after the previous ones'. */
  function Juntar(rs: seq<(seq<Parada>, seq<Advertencia>)>): (seq<Parada>, seq<Advertencia>)
  {
    if rs == [] then ([], [])
    else
      var antes := Juntar(rs[..|rs| - 1]);
      (antes.0 + rs[|rs| - 1].0, antes.1 + rs[|rs| - 1].1)
  }

  /**
    The fields are handled one at a time and independently: the stops and
    warnings of two runs of fields are those of each run, in field order.
  */
  lemma {:induction false} JuntarConcat(a: seq<(seq<Parada>, seq<Advertencia>)>, b: seq<(seq<Parada>, seq<Advertencia>)>)
    ensures Juntar(a + b) == (Juntar(a).0 + Juntar(b).0, Juntar(a).1 + Juntar(b).1)
    decreases |b|
  {
    if b == [] {
      assert a + b == a;
      assert Juntar(a).0 + [] == Juntar(a).0 && Juntar(a).1 + [] == Juntar(a).1;
    } else {
      var n := |b| - 1;
      JuntarConcat(a, b[..n]);
      assert (a + b)[..|a + b| - 1] == a + b[..n];
      assert (a + b)[|a + b| - 1] == b[n];
      var x, y, z := Juntar(a), Juntar(b[..n]), b[n];
      assert (x.0 + y.0) + z.0 == x.0 + (y.0 + z.0);
      assert (x.1 + y.1) + z.1 == x.1 + (y.1 + z.1);
    }
  }

  /** A stop is taken from a run of fields exactly when one of the fields gives it. */
  lemma {:induction false} JuntarParadas(rs: seq<(seq<Parada>, seq<Advertencia>)>, p: Parada)
    ensures p in Juntar(rs).0 <==> exists k :: 0 <= k < |rs| && p in rs[k].0
  {
    if rs != [] {
      var n := |rs| - 1;
      JuntarParadas(rs[..n], p);
      assert forall k :: 0 <= k < n ==> rs[..n][k] == rs[k];
    }
  }

  /**
    A stop is on a line read from fields `campos` exactly when some field, once
    trimmed, is the id of that stop in the map; and it is there once.
  */
  lemma CamposParadas(campos: seq<string>, paradas: map<int, Parada>, p: Parada)
    ensures p in Agregados(Juntar(CamposDe(campos, paradas)).0) <==>
      exists k :: 0 <= k < |campos| && Nombra(campos[k], paradas, p)
    ensures SinRepetidos(Agregados(Juntar(CamposDe(campos, paradas)).0))
  {
    var rs := CamposDe(campos, paradas);
    AgregadosCorrecto(Juntar(rs).0);
    JuntarParadas(rs, p);
    forall k | 0 <= k < |campos|
      ensures p in rs[k].0 <==> Nombra(campos[k], paradas, p)
    {
      CampoParada(campos[k], paradas, p);
    }
  }

  /** What parsearLinea makes of a line that yields a line: its code and stops. */
  datatype LineaLeida = LineaLeida(codigo: string, paradas: seq<Parada>)

  /**
    parsearLinea: a line with fewer than two `;` fields gives nothing; else
    the trimmed first field is the code, and the later fields are added as
    stops, in order, each stop once.
  */
  function LecturaDeLinea(s: string, paradas: map<int, Parada>): (r: Option<LineaLeida>)
    ensures Salteable(s) ==> r == None
  {
    if Salteable(s) then None
    else
      var partes := Dividir(s, SEPARADOR);
      if |partes| < 2 then None
      else
        Some(LineaLeida(Trim(partes[0]), Agregados(Juntar(CamposDe(partes[1..], paradas)).0)))
  }

  /** The warnings parsearLinea shows for a line. */
  function AdvertenciasDeLinea(s: string, paradas: map<int, Parada>): seq<Advertencia>
  {
    if Salteable(s) then []
    else
      var partes := Dividir(s, SEPARADOR);
      if |partes| < 2 then [] else Juntar(CamposDe(partes[1..], paradas)).1
  }

  /** One more field: its result comes last, after those of the earlier fields. */
  lemma CamposDeUltimo(campos: seq<string>, i: nat, paradas: map<int, Parada>)
    requires i < |campos|
    ensures Juntar(CamposDe(campos[..i + 1], paradas)) ==
      (Juntar(CamposDe(campos[..i], paradas)).0 + Campo(campos[i], paradas).0,
       Juntar(CamposDe(campos[..i], paradas)).1 + Campo(campos[i], paradas).1)
  {
    var rs := CamposDe(campos[..i + 1], paradas);
    assert rs[..i] == CamposDe(campos[..i], paradas);
  }

  /** Offering no stop, or one stop, to the line. */
  lemma AgregadosUno(ps: seq<Parada>, qs: seq<Parada>)
    requires |qs| <= 1
    ensures qs == [] ==> Agregados(ps + qs) == Agregados(ps)
    ensures |qs| == 1 && qs[0] in Agregados(ps) ==> Agregados(ps + qs) == Agregados(ps)
    ensures |qs| == 1 && qs[0] !in Agregados(ps) ==> Agregados(ps + qs) == Agregados(ps) + qs
  {
    if qs == [] {
      assert ps + qs == ps;
    } else {
      assert (ps + qs)[..|ps + qs| - 1] == ps;
    }
  }

  /**
    The body of parsearLinea's loop for one stop field: a known id adds its
    stop to the line (once), anything else but an empty field is a warning.
  */
  method AgregarCampo(linea: Linea, campo: string, paradas: map<int, Parada>) returns (avisos: seq<Advertencia>)
    requires linea.Valid()
    modifies linea
    ensures linea.Valid()
    ensures Campo(campo, paradas).0 == [] ==> linea.paradas == old(linea.paradas)
    ensures |Campo(campo, paradas).0| == 1 && Campo(campo, paradas).0[0] in old(linea.paradas) ==>
      linea.paradas == old(linea.paradas)
    ensures |Campo(campo, paradas).0| == 1 && Campo(campo, paradas).0[0] !in old(linea.paradas) ==>
      linea.paradas == old(linea.paradas) + Campo(campo, paradas).0
    ensures avisos == Campo(campo, paradas).1
  {
    avisos := [];
    var idStr := Trim(campo);
    if idStr != [] {
      match ParseInt(idStr) {
        case Ok(idParada) =>
          if idParada in paradas {
            linea.AgregarParada(paradas[idParada]);
          } else {
            avisos := [ParadaNoEncontrada(idParada)];
          }
        case Error(_) =>
          avisos := [ParadaNoValida(idStr)];
      }
    }
  }

  /**
    parsearLinea: creates the line with the trimmed first field as code, then
    adds, field by field, each stop whose id is known, warning about the
    others; returns null for a skipped line or one with fewer than two fields.
  */
  method ParsearLinea(s: string, paradas: map<int, Parada>) returns (linea: Linea?, advertencias: seq<Advertencia>)
    ensures linea == null <==> LecturaDeLinea(s, paradas).None?
    ensures linea != null ==>
      && fresh(linea) && linea.Valid()
      && linea.codigo == LecturaDeLinea(s, paradas).value.codigo
      && linea.paradas == LecturaDeLinea(s, paradas).value.paradas
    ensures advertencias == AdvertenciasDeLinea(s, paradas)
  {
    advertencias := [];
    if Trim(s) == [] || (|s| > 0 && s[0] == COMENTARIO) {
      return null, [];
    }
    var partes := Dividir(s, SEPARADOR);
    if |partes| < 2 {
      return null, [];
    }
    linea := new Linea(Trim(partes[0]));
    advertencias := AgregarCampos(linea, partes[1..], paradas);
  }

  /**
    The loop of parsearLinea over the stop fields of a record: adds to a new
    line, in order, each stop the fields name, and collects the warnings.
  */
  method AgregarCampos(linea: Linea, campos: seq<string>, paradas: map<int, Parada>)
    returns (advertencias: seq<Advertencia>)
    requires linea.Valid() && linea.paradas == []
    modifies linea
    ensures linea.Valid()
    ensures linea.paradas == Agregados(Juntar(CamposDe(campos, paradas)).0)
    ensures advertencias == Juntar(CamposDe(campos, paradas)).1
  {
    advertencias := [];
    for i := 0 to |campos|
      invariant linea.Valid()
      invariant linea.paradas == Agregados(Juntar(CamposDe(campos[..i], paradas)).0)
      invariant advertencias == Juntar(CamposDe(campos[..i], paradas)).1
    {
      var avisos := AgregarCampo(linea, campos[i], paradas);
      CamposDeUltimo(campos, i, paradas);
      AgregadosUno(Juntar(CamposDe(campos[..i], paradas)).0, Campo(campos[i], paradas).0);
      advertencias := advertencias + avisos;
    }
    assert campos[..|campos|] == campos;
  }

  /** parsearLinea as a reading of one text line. */
  function Lectora(paradas: map<int, Parada>): string -> Option<LineaLeida>
  {
    s => LecturaDeLinea(s, paradas)
  }

  /** The warnings of one text line. */
  function Avisadora(paradas: map<int, Parada>): string -> seq<Advertencia>
  {
    s => AdvertenciasDeLinea(s, paradas)
  }

  /**
    A line is among those read from a file exactly when parsearLinea makes it
    of some text line of the file; skipped lines yield no line and no warning.
  */
  lemma LineasLeidasSon(textos: seq<string>, paradas: map<int, Parada>, l: LineaLeida)
    ensures l in Presentes(textos, Lectora(paradas)) <==>
      exists i :: 0 <= i < |textos| && LecturaDeLinea(textos[i], paradas) == Some(l)
    ensures (forall i :: 0 <= i < |textos| ==> Salteable(textos[i])) ==>
      Presentes(textos, Lectora(paradas)) == [] && Concatenados(textos, Avisadora(paradas)) == []
  {
    PresentesSon(textos, Lectora(paradas), l);
    if forall i :: 0 <= i < |textos| ==> Salteable(textos[i]) {
      LeidosVacios(textos, Lectora(paradas), Avisadora(paradas));
    }
  }

  /** The line objects `lineas` hold, one for one, the codes and stops of `leidas`. */
  ghost predicate Cargadas(lineas: seq<Linea>, leidas: seq<LineaLeida>)
    reads lineas
  {
    && |lineas| == |leidas|
    && forall k :: 0 <= k < |lineas| ==>
         && lineas[k].Valid()
         && lineas[k].codigo == leidas[k].codigo
         && lineas[k].paradas == leidas[k].paradas
  }

  /** No line object occurs twice. */
  ghost predicate Distintas(lineas: seq<Linea>)
  {
    forall j, k :: 0 <= j < k < |lineas| ==> lineas[j] != lineas[k]
  }

  /**
    The step of cargarLineas after a line was parsed: a line object that is
    not null is appended to the list.
  */
  method Guardar(lineas: seq<Linea>, linea: Linea?, ghost leidas: seq<LineaLeida>, ghost l: Option<LineaLeida>)
    returns (nuevas: seq<Linea>)
    requires Cargadas(lineas, leidas) && Distintas(lineas)
    requires linea != null ==> linea !in lineas
    requires linea == null <==> l.None?
    requires linea != null ==> linea.Valid() && linea.codigo == l.value.codigo && linea.paradas == l.value.paradas
    ensures Cargadas(nuevas, leidas + Obtenida(l)) && Distintas(nuevas)
    ensures nuevas == if linea == null then lineas else lineas + [linea]
  {
    nuevas := lineas;
    if linea != null {
      nuevas := lineas + [linea];
    }
  }

  /**
    cargarLineas: parses every line of the file and keeps, in order, the lines
    that are not null; the warnings of every record are shown in order.
  */
  method CargarLineas(textos: seq<string>, paradas: map<int, Parada>)
    returns (lineas: seq<Linea>, advertencias: seq<Advertencia>)
    ensures Cargadas(lineas, Presentes(textos, Lectora(paradas)))
    ensures forall l | l in lineas :: fresh(l)
    ensures Distintas(lineas)
    ensures advertencias == Concatenados(textos, Avisadora(paradas))
  {
    lineas := [];
    advertencias := [];
    for i := 0 to |textos|
      invariant Leyendo(textos, paradas, i, lineas, advertencias)
      invariant forall l | l in lineas :: fresh(l)
    {
      lineas, advertencias := LeerRegistro(textos, paradas, i, lineas, advertencias);
    }
    assert textos[..|textos|] == textos;
  }

  /**
    The state of cargarLineas after the first `i` records: the line objects
    kept so far, all distinct, and the warnings shown so far.
  */
  ghost predicate Leyendo(textos: seq<string>, paradas: map<int, Parada>, i: int,
                          lineas: seq<Linea>, advertencias: seq<Advertencia>)
    reads lineas
  {
    && 0 <= i <= |textos|
    && Cargadas(lineas, Presentes(textos[..i], Lectora(paradas)))
    && Distintas(lineas)
    && advertencias == Concatenados(textos[..i], Avisadora(paradas))
  }

  /** One pass of cargarLineas's loop: parse record `i`, show its warnings, keep its line. */
  method LeerRegistro(textos: seq<string>, paradas: map<int, Parada>, i: int,
                      lineas: seq<Linea>, advertencias: seq<Advertencia>)
    returns (nuevas: seq<Linea>, avisos: seq<Advertencia>)
    requires 0 <= i < |textos| && Leyendo(textos, paradas, i, lineas, advertencias)
    ensures Leyendo(textos, paradas, i + 1, nuevas, avisos)
    ensures forall l | l in nuevas :: l in lineas || fresh(l)
  {
    var linea, aviso := ParsearLinea(textos[i], paradas);
    LeidosUltimo(textos, i, Lectora(paradas), Avisadora(paradas));
    avisos := advertencias + aviso;
    assert linea != null ==> linea !in lineas;
    nuevas := Guardar(lineas, linea, Presentes(textos[..i], Lectora(paradas)), LecturaDeLinea(textos[i], paradas));
  }
}
