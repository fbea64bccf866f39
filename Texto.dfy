/**
  The three pieces of java.lang that the record loaders (src/io/Datos.java,
  src/util/CargaDeDatos.java) rely on, written out: String.trim,
  String.split with a one-character separator, and Integer.parseInt, whose
  NumberFormatException becomes an error value.
*/
module Texto {

  /** What the loaders can fail with, in place of the exception they let escape. */
  datatype Falla =
    | NumeroInvalido(texto: string)   // NumberFormatException from Integer.parseInt
    | SinCampos                       // ArrayIndexOutOfBoundsException on partes[0]

  datatype Resultado<T> = Ok(valor: T) | Error(falla: Falla)

  // ---------------------------------------------------------------------------
  // String.trim
  // ---------------------------------------------------------------------------

  /** The characters String.trim drops from both ends: code points up to U+0020. */
  predicate Blanco(c: char)
  {
    c <= ' '
  }

  /** Every character of `s` is blank. */
  predicate TodoBlanco(s: string)
  {
    forall i :: 0 <= i < |s| ==> Blanco(s[i])
  }

  /** `s` neither starts nor ends with a blank. */
  predicate Recortado(s: string)
  {
    s == [] || (!Blanco(s[0]) && !Blanco(s[|s| - 1]))
  }

  function RecortarInicio(s: string): (r: string)
    ensures |r| <= |s| && r == s[|s| - |r|..]
    ensures r == [] || !Blanco(r[0])
  {
    if s != [] && Blanco(s[0]) then RecortarInicio(s[1..]) else s
  }

  /** What RecortarInicio drops is blank. */
  lemma {:induction false} RecortarInicioDescarta(s: string)
    ensures TodoBlanco(s[..|s| - |RecortarInicio(s)|])
  {
    if s != [] && Blanco(s[0]) {
      var t := s[1..];
      RecortarInicioDescarta(t);
      var k := |t| - |RecortarInicio(t)|;
      assert |s| - |RecortarInicio(s)| == k + 1;
      var u := s[..k + 1];
      forall i | 0 <= i < |u|
        ensures Blanco(u[i])
      {
        if i > 0 {
          assert u[i] == t[..k][i - 1];
        }
      }
    }
  }

  function RecortarFin(s: string): (r: string)
    ensures |r| <= |s| && r == s[..|r|]
    ensures r == [] || !Blanco(r[|r| - 1])
  {
    if s != [] && Blanco(s[|s| - 1]) then RecortarFin(s[..|s| - 1]) else s
  }

  /** What RecortarFin drops is blank. */
  lemma {:induction false} RecortarFinDescarta(s: string)
    ensures TodoBlanco(s[|RecortarFin(s)|..])
  {
    if s != [] && Blanco(s[|s| - 1]) {
      RecortarFinDescarta(s[..|s| - 1]);
      assert s[|RecortarFin(s)|..] == s[..|s| - 1][|RecortarFin(s[..|s| - 1])|..] + [s[|s| - 1]];
    }
  }

  /** String.trim: `s` without its leading and trailing blanks. */
  function Trim(s: string): (r: string)
    ensures Recortado(r)
  {
    var a := RecortarInicio(s);
    var r := RecortarFin(a);
    assert r != [] ==> r[0] == a[0];
    r
  }

  /** A string trims to nothing exactly when it is all blanks. */
  lemma TrimVacio(s: string)
    ensures Trim(s) == [] <==> TodoBlanco(s)
  {
    var a := RecortarInicio(s);
    var r := RecortarFin(a);
    if r == [] {
      RecortarInicioDescarta(s);
      RecortarFinDescarta(a);
      assert s == s[..|s| - |a|] + a;
      assert a[|r|..] == a;
    } else {
      assert r[0] == a[0] == s[|s| - |a|];
    }
  }

  lemma RecortarInicioBlancos(a: string, r: string)
    requires TodoBlanco(a) && (r == [] || !Blanco(r[0]))
    ensures RecortarInicio(a + r) == r
    decreases |a|
  {
    if a != [] {
      assert (a + r)[1..] == a[1..] + r;
      RecortarInicioBlancos(a[1..], r);
    } else {
      assert a + r == r;
    }
  }

  lemma RecortarFinBlancos(r: string, b: string)
    requires TodoBlanco(b) && (r == [] || !Blanco(r[|r| - 1]))
    ensures RecortarFin(r + b) == r
    decreases |b|
  {
    if b != [] {
      assert (r + b)[..|r + b| - 1] == r + b[..|b| - 1];
      RecortarFinBlancos(r, b[..|b| - 1]);
    } else {
      assert r + b == r;
    }
  }

  /**
    Trim undoes surrounding with blanks: a string with no blank at either end,
    padded on both sides with blanks, trims back to itself.
  */
  lemma {:induction false} TrimDeshaceRelleno(a: string, r: string, b: string)
    requires TodoBlanco(a) && TodoBlanco(b) && Recortado(r)
    ensures Trim(a + r + b) == r
  {
    if r == [] {
      assert a + r + b == a + b;
      RecortarInicioBlancos(a + b, []);
      assert a + b + [] == a + b;
      assert TodoBlanco(a + b);
      assert RecortarInicio(a + b) == [];
    } else {
      assert a + r + b == a + (r + b);
      RecortarInicioBlancos(a, r + b);
      RecortarFinBlancos(r, b);
    }
  }

  /** Trimming a string with no blank at either end changes nothing. */
  lemma TrimRecortado(r: string)
    requires Recortado(r)
    ensures Trim(r) == r
  {
    assert RecortarInicio(r) == r;
  }

  // ---------------------------------------------------------------------------
  // String.split
  // ---------------------------------------------------------------------------

  /** All the pieces of `s` between occurrences of `sep`, empty ones included. */
  function Trozos(s: string, sep: char): (r: seq<string>)
    ensures |r| >= 1
  {
    if s == [] then [[]]
    else
      var t := Trozos(s[1..], sep);
      if s[0] == sep then [[]] + t else [[s[0]] + t[0]] + t[1..]
  }

  /** No piece holds the separator. */
  lemma {:induction false} TrozosSinSep(s: string, sep: char)
    ensures forall k :: 0 <= k < |Trozos(s, sep)| ==> sep !in Trozos(s, sep)[k]
  {
    if s != [] {
      TrozosSinSep(s[1..], sep);
      var t := Trozos(s[1..], sep);
      if s[0] != sep {
        assert forall k :: 1 <= k < |t| ==> Trozos(s, sep)[k] == t[k];
      }
    }
  }

  /** The pieces joined back with `sep` between consecutive ones. */
  function Unir(ps: seq<string>, sep: char): string
    requires |ps| >= 1
  {
    if |ps| == 1 then ps[0] else ps[0] + [sep] + Unir(ps[1..], sep)
  }

  /** Splitting and joining again gives back the string. */
  lemma {:induction false} UnirTrozos(s: string, sep: char)
    ensures Unir(Trozos(s, sep), sep) == s
  {
    if s != [] {
      var t := Trozos(s[1..], sep);
      UnirTrozos(s[1..], sep);
      if s[0] == sep {
        assert Trozos(s, sep)[1..] == t;
      } else {
        var r := Trozos(s, sep);
        assert r[1..] == t[1..];
        if |t| > 1 {
          assert t == [t[0]] + t[1..];
        }
      }
    }
  }

  lemma {:induction false} TrozosPrefijo(a: string, rest: string, sep: char)
    requires sep !in a
    ensures Trozos(a + [sep] + rest, sep) == [a] + Trozos(rest, sep)
  {
    if a == [] {
      assert a + [sep] + rest == [sep] + rest;
      assert ([sep] + rest)[1..] == rest;
    } else {
      assert (a + [sep] + rest)[1..] == a[1..] + [sep] + rest;
      TrozosPrefijo(a[1..], rest, sep);
      assert [a[0]] + a[1..] == a;
    }
  }

  lemma {:induction false} TrozosSinSeparador(a: string, sep: char)
    requires sep !in a
    ensures Trozos(a, sep) == [a]
  {
    if a != [] {
      TrozosSinSeparador(a[1..], sep);
      assert [a[0]] + a[1..] == a;
    }
  }

  /** Joining pieces that hold no separator and splitting again gives back the pieces. */
  lemma {:induction false} TrozosUnir(ps: seq<string>, sep: char)
    requires |ps| >= 1
    requires forall k :: 0 <= k < |ps| ==> sep !in ps[k]
    ensures Trozos(Unir(ps, sep), sep) == ps
  {
    if |ps| == 1 {
      TrozosSinSeparador(ps[0], sep);
    } else {
      TrozosUnir(ps[1..], sep);
      TrozosPrefijo(ps[0], Unir(ps[1..], sep), sep);
    }
  }

  /** Drops the empty pieces at the end of a list of pieces. */
  function SinVaciosFinales(ps: seq<string>): (r: seq<string>)
    ensures |r| <= |ps| && r == ps[..|r|]
    ensures r == [] || r[|r| - 1] != []
  {
    if ps != [] && ps[|ps| - 1] == [] then SinVaciosFinales(ps[..|ps| - 1]) else ps
  }

  /** Only empty pieces are dropped. */
  lemma {:induction false} SinVaciosFinalesVacios(ps: seq<string>)
    ensures forall k :: |SinVaciosFinales(ps)| <= k < |ps| ==> ps[k] == []
  {
    if ps != [] && ps[|ps| - 1] == [] {
      SinVaciosFinalesVacios(ps[..|ps| - 1]);
    }
  }

  /**
    String.split(sep) with a limit of zero: a string without the separator is
    its own single field (even when empty); otherwise the pieces between
    separators, without the empty ones at the end.
  */
  function Dividir(s: string, sep: char): (r: seq<string>)
  {
    if sep !in s then [s] else SinVaciosFinales(Trozos(s, sep))
  }

  /** No field of a split holds the separator. */
  lemma DividirSinSeparador(s: string, sep: char)
    ensures forall k :: 0 <= k < |Dividir(s, sep)| ==> sep !in Dividir(s, sep)[k]
  {
    if sep in s {
      TrozosSinSep(s, sep);
      var t := Trozos(s, sep);
      assert forall k :: 0 <= k < |SinVaciosFinales(t)| ==> SinVaciosFinales(t)[k] == t[k];
    }
  }

  /**
    What split returns is a prefix of all the pieces, and only empty pieces
    at the end are lost, so joining the fields gives back the string up to
    trailing separators.
  */
  lemma DividirPrefijo(s: string, sep: char)
    ensures |Dividir(s, sep)| <= |Trozos(s, sep)|
    ensures Dividir(s, sep) == Trozos(s, sep)[..|Dividir(s, sep)|]
    ensures forall k :: |Dividir(s, sep)| <= k < |Trozos(s, sep)| ==> Trozos(s, sep)[k] == []
  {
    if sep !in s {
      TrozosSinSeparador(s, sep);
    } else {
      SinVaciosFinalesVacios(Trozos(s, sep));
    }
  }

  /**
    Fields without the separator whose last one is not empty, joined with the
    separator, split back into themselves.
  */
  lemma DividirUnir(ps: seq<string>, sep: char)
    requires |ps| >= 1 && ps[|ps| - 1] != []
    requires forall k :: 0 <= k < |ps| ==> sep !in ps[k]
    ensures Dividir(Unir(ps, sep), sep) == ps
  {
    TrozosUnir(ps, sep);
    if sep !in Unir(ps, sep) {
      TrozosSinSeparador(Unir(ps, sep), sep);
    }
  }

  // ---------------------------------------------------------------------------
  // Integer.parseInt
  // ---------------------------------------------------------------------------

  const MIN_INT: int := -0x8000_0000
  const MAX_INT: int := 0x7fff_ffff

  predicate Digito(c: char)
  {
    '0' <= c <= '9'
  }

  predicate SoloDigitos(s: string)
  {
    forall i :: 0 <= i < |s| ==> Digito(s[i])
  }

  /** The value of a string of decimal digits, most significant first. */
  function ValorDigitos(ds: string): nat
    requires SoloDigitos(ds)
  {
    if ds == [] then 0
    else ValorDigitos(ds[..|ds| - 1]) * 10 + (ds[|ds| - 1] as int - '0' as int)
  }

  /**
    Integer.parseInt(s, 10): an optional sign and at least one decimal digit,
    with a value in the 32-bit range; anything else is a NumberFormatException.
  */
  function ParseInt(s: string): (r: Resultado<int>)
    ensures r.Ok? ==> MIN_INT <= r.valor <= MAX_INT
    ensures r.Error? ==> r.falla == NumeroInvalido(s)
    ensures r.Ok? ==> s != [] && (Digito(s[0]) || s[0] == '-' || s[0] == '+')
  {
    var negativo := s != [] && s[0] == '-';
    var cuerpo := if s != [] && (s[0] == '-' || s[0] == '+') then s[1..] else s;
    if cuerpo == [] || !SoloDigitos(cuerpo) then Error(NumeroInvalido(s))
    else
      var v: int := if negativo then 0 - ValorDigitos(cuerpo) as int else ValorDigitos(cuerpo);
      if MIN_INT <= v <= MAX_INT then Ok(v) else Error(NumeroInvalido(s))
  }

  /** The decimal digits of `n`, as Integer.toString writes them. */
  function Digitos(n: nat): (r: string)
    ensures r != [] && SoloDigitos(r)
  {
    if n < 10 then [('0' as int + n) as char]
    else Digitos(n / 10) + [('0' as int + n % 10) as char]
  }

  lemma {:induction false} ValorDeDigitos(n: nat)
    ensures ValorDigitos(Digitos(n)) == n
  {
    if n >= 10 {
      ValorDeDigitos(n / 10);
      var d := Digitos(n);
      assert d[..|d| - 1] == Digitos(n / 10);
    }
  }

  /** Integer.toString. */
  function Decimal(n: int): (r: string)
  {
    if n < 0 then "-" + Digitos(-n) else Digitos(n)
  }

  /** parseInt reads back every 32-bit integer written by Integer.toString. */
  lemma ParseIntDecimal(n: int)
    requires MIN_INT <= n <= MAX_INT
    ensures ParseInt(Decimal(n)) == Ok(n)
  {
    if n < 0 {
      var d := Digitos(-n);
      ValorDeDigitos(-n);
      assert Decimal(n) == "-" + d;
      assert ("-" + d)[1..] == d;
    } else {
      ValorDeDigitos(n);
      assert Digito(Digitos(n)[0]);
    }
  }

  /** A number as Integer.toString writes it has no blanks and no `;`. */
  lemma DecimalSinSeparador(n: int)
    ensures Recortado(Decimal(n)) && ';' !in Decimal(n)
  {
    var d := Decimal(n);
    var ds := if n < 0 then Digitos(-n) else Digitos(n);
    assert d == if n < 0 then "-" + ds else ds;
    assert forall i | 0 <= i < |d| :: d[i] == '-' || Digito(d[i]);
  }

  /** A string without a sign or without digits, or with a non-digit, is not a number. */
  lemma ParseIntRechaza(s: string)
    requires s == [] || s == "-" || s == "+" || (s[0] != '-' && s[0] != '+' && !Digito(s[0]))
    ensures ParseInt(s) == Error(NumeroInvalido(s))
  {
  }
}
